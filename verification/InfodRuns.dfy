/** What holds over every run of the daemon: an invariant of its clients and its store, and
    transactions that take effect at their COMMIT and nowhere else. */
module InfodRuns {
  import opened Bytes
  import opened Entries
  import opened Infod
  import Matcher

  // ---- what every step keeps ----------------------------------------------------------------------

  ghost predicate CmdOk(cmd: Command)
  {
    |cmd.data| < 0x10000
  }

  ghost predicate Bufferable(cmd: Command)
  {
    CmdOk(cmd) && cmd.msg != CMD_BEGIN && cmd.msg != CMD_COMMIT && cmd.msg != MSG_EOF
  }

  ghost predicate SubsOk(subs: seq<seq<byte>>, nsubs: int)
  {
    nsubs == |subs| <= MAX_SUBS + 1 &&
    forall k :: 0 <= k < |subs| ==> 0 !in subs[k] && Matcher.Parse(subs[k]).Some?
  }

  /** A live client: its subscription count is right and within the limit, its patterns are valid, and
      outside a transaction nothing is buffered, so that the tail that BEGIN sets is an empty slot. */
  ghost predicate ClientOk(cl: Client)
  {
    SubsOk(cl.subs, cl.nsubs) &&
    (cl.begins == 0 ==> cl.buf == []) &&
    (forall k :: 0 <= k < |cl.buf| ==> Bufferable(cl.buf[k]))
  }

  ghost predicate StoreOk(m: Contents)
  {
    exists es :: Lists(es, m)
  }

  ghost predicate Ok(w: World)
  {
    StoreOk(w.store) && forall c :: c in w.clients ==> ClientOk(w.clients[c])
  }

  ghost predicate EventOk(e: Event)
  {
    e.Input? ==> CmdOk(e.cmd)
  }

  lemma {:induction false} SlotExists(es: seq<seq<byte>>, key: seq<byte>) returns (i: nat)
    requires Sorted(es)
    ensures IsSlot(es, key, i)
  {
    i := |es|;
    while i > 0 && !Less(KeyOf(es[i - 1]), key)
      invariant i <= |es|
      invariant forall j :: i <= j < |es| ==> !Less(KeyOf(es[j]), key)
    {
      i := i - 1;
    }
    if i > 0 {
      forall j | 0 <= j < i ensures Less(KeyOf(es[j]), key) {
        if j < i - 1 {
          LessTransitive(KeyOf(es[j]), KeyOf(es[i - 1]), key);
        }
      }
    }
  }

  lemma {:induction false} PutLists(m: Contents, kv: seq<byte>)
    requires StoreOk(m) && IsKeyValue(kv)
    ensures StoreOk(m[KeyOf(kv) := kv])
  {
    hide Sorted, ToMap, KeyOf, IsSlot;
    var es :| Lists(es, m);
    var i := SlotExists(es, KeyOf(kv));
    SlotFinds(es, KeyOf(kv), i);
    if KeyOf(kv) in m {
      ReplaceUpdates(es, i, kv);
      assert Lists(es[i := kv], m[KeyOf(kv) := kv]);
    } else {
      InsertUpdates(es, i, kv);
      assert Lists(es[..i] + [kv] + es[i..], m[KeyOf(kv) := kv]);
    }
  }

  lemma {:induction false} DelLists(m: Contents, key: seq<byte>)
    requires StoreOk(m)
    ensures StoreOk(m - {key})
  {
    hide Sorted, ToMap, KeyOf, IsSlot;
    var es :| Lists(es, m);
    var i := SlotExists(es, key);
    SlotFinds(es, key, i);
    if key in m {
      RemoveUpdates(es, i);
      assert Lists(es[..i] + es[i + 1..], m - {key});
    } else {
      assert m - {key} == m;
    }
  }

  lemma {:induction false} ActStoreOk(cl: Client, m: Contents, cmd: Command, refused: bool)
    requires StoreOk(m) && CmdOk(cmd)
    ensures StoreOk(Act(cl, m, cmd, refused).store)
  {
    hide StoreOk, KeyOf, Matching, Listing, FindSub, Matcher.Parse;
    DelLists(m, cmd.data);
    DelLists(m, KeyOf(cmd.data));
    if 0 in cmd.data { PutLists(m, cmd.data); }
  }

  lemma {:induction false} UnsubOk(cl: Client, m: Contents, data: seq<byte>)
    requires SubsOk(cl.subs, cl.nsubs)
    ensures var cl' := Unsubscribe(cl, m, data).cl; SubsOk(cl'.subs, cl'.nsubs)
  {
    hide Matcher.Parse;
    var k := FindSub(cl.subs, data);
    if k < |cl.subs| {
      var s := cl.subs[..k] + cl.subs[k + 1..];
      assert forall j :: 0 <= j < |s| ==> s[j] == cl.subs[if j < k then j else j + 1];
    }
  }

  lemma {:induction false} ActSubsOk(cl: Client, m: Contents, cmd: Command, refused: bool)
    requires SubsOk(cl.subs, cl.nsubs)
    ensures var e := Act(cl, m, cmd, refused); e.Reply? ==> SubsOk(e.cl.subs, e.cl.nsubs)
  {
    hide KeyOf, Matching, Listing, FindSub, Matcher.Parse;
    if cmd.msg == CMD_UNSUB {
      UnsubOk(cl, m, cmd.data);
    } else if cmd.msg == CMD_SUB {
      var s := [cmd.data] + cl.subs;
      assert forall j :: 0 < j < |s| ==> s[j] == cl.subs[j - 1];
    }
  }

  /** Everybody's health but for the buffer of a client in playback. */
  ghost predicate OkBut(w: World, c: nat)
  {
    StoreOk(w.store) && c in w.clients && SubsOk(w.clients[c].subs, w.clients[c].nsubs) &&
    (forall k :: 0 <= k < |w.clients[c].buf| ==> Bufferable(w.clients[c].buf[k])) &&
    forall d :: d in w.clients && d != c ==> ClientOk(w.clients[d])
  }

  lemma {:induction false} DirectOkBut(w: World, c: nat, cmd: Command, refused: bool)
    requires OkBut(w, c) && CmdOk(cmd)
    ensures OkBut(Direct(w, c, cmd, refused).w, c)
    ensures cmd.msg != CMD_BEGIN ==> Direct(w, c, cmd, refused).w.clients[c].begins == w.clients[c].begins
  {
    hide StoreOk, Act, Notified, Bufferable, Matcher.Parse;
    ActStoreOk(w.clients[c], w.store, cmd, refused);
    ActSubsOk(w.clients[c], w.store, cmd, refused);
    ActKeepsBuf(w.clients[c], w.store, cmd, refused);
  }

  lemma {:induction false} PlaybackOk(w: World, c: nat, k: nat, refusals: nat -> bool)
    requires OkBut(w, c) && w.clients[c].begins == 0
    ensures Ok(Settle(Playback(w, c, k, refusals), c))
    decreases |w.clients[c].buf|
  {
    hide StoreOk, Direct, SubsOk;
    if w.clients[c].buf != [] {
      var p := Pop(w, c);
      assert OkBut(p, c);
      var cmd := w.clients[c].buf[0];
      assert Bufferable(cmd);
      DirectOkBut(p, c, cmd, refusals(k));
      var o := Direct(p, c, cmd, refusals(k));
      if o.ret > 0 { PlaybackOk(o.w, c, k + 1, refusals); }
    }
  }

  lemma {:induction false} BufferOk(w: World, c: nat, cmd: Command, refusals: nat -> bool)
    requires Ok(w) && c in w.clients && w.clients[c].begins > 0 && CmdOk(cmd) && cmd.msg != MSG_EOF
    ensures Ok(Settle(Buffer(w, c, cmd, refusals), c))
  {
    hide StoreOk, Playback, SubsOk;
    var cl := w.clients[c];
    if cmd.msg == CMD_COMMIT && cl.begins == 1 {
      var w' := Set(w, c, cl.(begins := cl.begins - 1));
      PlaybackOk(w', c, 0, refusals);
    }
  }

  lemma {:induction false} StepOk(w: World, e: Event)
    requires Ok(w) && EventOk(e)
    ensures Ok(Step(w, e))
  {
    hide StoreOk, Direct, Buffer, Bufferable, Matcher.Parse;
    match e {
      case Connect(c, text) =>
      case Input(c, cmd, refusals) =>
        if c in w.clients {
          if cmd.msg != MSG_EOF && w.clients[c].begins > 0 {
            BufferOk(w, c, cmd, refusals);
          } else {
            DirectClean(w, c, cmd, refusals(0));
          }
        }
    }
  }

  lemma {:induction false} DirectClean(w: World, c: nat, cmd: Command, refused: bool)
    requires Ok(w) && CmdOk(cmd) && c in w.clients
    requires cmd.msg == MSG_EOF || w.clients[c].begins == 0
    ensures Ok(Settle(Direct(w, c, cmd, refused), c))
  {
    hide StoreOk, Direct, Bufferable, SubsOk;
    DirectOkBut(w, c, cmd, refused);
    if cmd.msg == MSG_EOF { EofCloses(w, c, cmd, refused); }
  }

  lemma {:induction false} EofCloses(w: World, c: nat, cmd: Command, refused: bool)
    requires c in w.clients && cmd.msg == MSG_EOF
    ensures Direct(w, c, cmd, refused).ret == 0
  {
  }

  /** Every reachable state is healthy: the subscription counts are right and at most MAX_SUBS + 1,
      and a BEGIN always finds an empty buffer. */
  lemma {:induction false} RunOk(w: World, es: seq<Event>)
    requires Ok(w) && forall k :: 0 <= k < |es| ==> EventOk(es[k])
    ensures Ok(Run(w, es))
    decreases |es|
  {
    hide Ok, Step, EventOk;
    if es != [] {
      StepOk(w, es[0]);
      assert forall k :: 0 <= k < |es[1..]| ==> es[1..][k] == es[k + 1];
      RunOk(Step(w, es[0]), es[1..]);
    }
  }

  // ---- transactions ---------------------------------------------------------------------------------

  /** A client without its transaction. */
  function Bare(cl: Client): (r: Client)
  {
    cl.(begins := 0, buf := [])
  }

  /** The world without its pending transactions: what clients can see. */
  function Erase(w: World): (r: World)
  {
    World(w.store, map c | c in w.clients :: Bare(w.clients[c]))
  }

  /** The direct commands that one event amounts to. */
  ghost function Flat(w: World, e: Event): (r: seq<Event>)
  {
    match e
    case Connect(_, _) => [e]
    case Input(c, cmd, refusals) =>
      if c !in w.clients then []
      else if cmd.msg == MSG_EOF then [e]
      else if cmd.msg == CMD_BEGIN then []
      else if w.clients[c].begins == 0 then [e]
      else if cmd.msg == CMD_COMMIT && w.clients[c].begins == 1 then Played(c, w.clients[c].buf, 0, refusals)
      else []
  }

  /** The buffered commands as direct input. */
  ghost function Played(c: nat, buf: seq<Command>, k: nat, refusals: nat -> bool): (r: seq<Event>)
    ensures |r| == |buf| && forall i :: 0 <= i < |r| ==> r[i].Input? && r[i].c == c && r[i].cmd == buf[i]
    decreases |buf|
  {
    if buf == [] then [] else [Input(c, buf[0], _ => refusals(k))] + Played(c, buf[1..], k + 1, refusals)
  }

  ghost function Flatten(w: World, es: seq<Event>): (r: seq<Event>)
    decreases |es|
  {
    if es == [] then [] else Flat(w, es[0]) + Flatten(Step(w, es[0]), es[1..])
  }

  lemma {:induction false} EraseMap(a: map<nat, Client>, b: map<nat, Client>)
    requires a.Keys == b.Keys && forall c :: c in a ==> Bare(a[c]) == b[c]
    ensures (map c | c in a :: Bare(a[c])) == b
  {
  }

  /** e' is e but for the transaction of the client. */
  ghost predicate SameBare(e: Effect, e': Effect)
  {
    if e.Reply? then e' == Reply(Bare(e.cl), e.store, e.ret) else e' == e
  }

  lemma {:induction false} RefuseErases(cl: Client, m: Contents, code: nat)
    ensures SameBare(Refuse(cl, m, code), Refuse(Bare(cl), m, code))
  {
  }

  lemma {:induction false} SubscribeErases(cl: Client, m: Contents, data: seq<byte>)
    ensures SameBare(Subscribe(cl, m, data), Subscribe(Bare(cl), m, data))
  {
    hide Refuse, Matching, Listing, Matcher.Parse;
    RefuseErases(cl, m, TOO_BIG);
    RefuseErases(cl, m, BAD_ARG);
  }

  lemma {:induction false} UnsubscribeErases(cl: Client, m: Contents, data: seq<byte>)
    ensures SameBare(Unsubscribe(cl, m, data), Unsubscribe(Bare(cl), m, data))
  {
    hide FindSub;
  }

  lemma {:induction false} WriteErases(cl: Client, m: Contents, data: seq<byte>, refused: bool)
    ensures SameBare(Write(cl, m, data, refused), Write(Bare(cl), m, data, refused))
  {
    hide KeyOf, Ephemeral, Refuse;
    RefuseErases(cl, m - {KeyOf(data)}, INTERNAL);
  }

  lemma {:induction false} ReadErases(cl: Client, m: Contents, data: seq<byte>)
    ensures SameBare(Read(cl, m, data), Read(Bare(cl), m, data))
  {
    hide Refuse;
    RefuseErases(cl, m, BAD_ARG);
  }

  /** A direct command reads and writes nothing of a transaction. */
  lemma {:induction false} ActErases(cl: Client, m: Contents, cmd: Command, refused: bool)
    requires cmd.msg != CMD_BEGIN
    ensures SameBare(Act(cl, m, cmd, refused), Act(Bare(cl), m, cmd, refused))
  {
    hide Subscribe, Unsubscribe, Read, Write, Refuse;
    SubscribeErases(cl, m, cmd.data);
    UnsubscribeErases(cl, m, cmd.data);
    ReadErases(cl, m, cmd.data);
    WriteErases(cl, m, cmd.data, refused);
    RefuseErases(cl, m, BAD_SEQ);
    RefuseErases(cl, m, BAD_MSG);
  }

  lemma {:induction false} DirectErases(w: World, c: nat, cmd: Command, refused: bool)
    requires c in w.clients && cmd.msg != CMD_BEGIN
    ensures var o, o' := Direct(w, c, cmd, refused), Direct(Erase(w), c, cmd, refused);
            o'.w == Erase(o.w) && o'.ret == o.ret
  {
    hide Act, Notified;
    ActErases(w.clients[c], w.store, cmd, refused);
    var o, o' := Direct(w, c, cmd, refused), Direct(Erase(w), c, cmd, refused);
    EraseMap(o.w.clients, o'.w.clients);
  }

  lemma {:induction false} SettleErases(o: Outcome, o': Outcome, c: nat)
    requires o'.w == Erase(o.w) && o'.ret == o.ret
    ensures Settle(o', c) == Erase(Settle(o, c))
  {
    EraseMap(Settle(o, c).clients, Settle(o', c).clients);
  }

  lemma {:induction false} StepErases(w: World, c: nat, cmd: Command, refusals: nat -> bool)
    requires c in w.clients && cmd.msg != CMD_BEGIN
    ensures Step(Erase(w), Input(c, cmd, refusals)) == Erase(Settle(Direct(w, c, cmd, refusals(0)), c))
  {
    hide Direct, Settle;
    DirectErases(w, c, cmd, refusals(0));
    SettleErases(Direct(w, c, cmd, refusals(0)), Direct(Erase(w), c, cmd, refusals(0)), c);
  }

  lemma {:induction false} RunGone(w: World, c: nat, es: seq<Event>)
    requires c !in w.clients && forall k :: 0 <= k < |es| ==> es[k].Input? && es[k].c == c
    ensures Run(w, es) == w
    decreases |es|
  {
    hide Exec, Settle;
    if es != [] {
      assert Step(w, es[0]) == w;
      RunGone(w, c, es[1..]);
    }
  }

  /** Playing a buffer is giving its commands directly, up to the first that closes the connection. */
  lemma {:induction false} PlaybackFlat(w: World, c: nat, k: nat, refusals: nat -> bool)
    requires c in w.clients && forall i :: 0 <= i < |w.clients[c].buf| ==> Bufferable(w.clients[c].buf[i])
    ensures Run(Erase(w), Played(c, w.clients[c].buf, k, refusals)) == Erase(Settle(Playback(w, c, k, refusals), c))
    decreases |w.clients[c].buf|
  {
    hide Direct, Step;
    var buf := w.clients[c].buf;
    if buf != [] {
      var p := Pop(w, c);
      EraseMap(p.clients, Erase(w).clients);
      assert Erase(p) == Erase(w);
      var e := Input(c, buf[0], _ => refusals(k));
      var es := Played(c, buf, k, refusals);
      var rest := Played(c, buf[1..], k + 1, refusals);
      assert es == [e] + rest;
      assert es[0] == e && es[1..] == rest;
      assert Bufferable(buf[0]);
      StepErases(p, c, buf[0], e.refusals);
      var o := Direct(p, c, buf[0], refusals(k));
      if o.ret <= 0 {
        RunGone(Erase(Settle(o, c)), c, rest);
      } else {
        PlaybackFlat(o.w, c, k + 1, refusals);
      }
    }
  }

  lemma {:induction false} RunOne(w: World, e: Event)
    ensures Run(w, [e]) == Step(w, e)
  {
    hide Step;
    assert [e][1..] == [];
  }

  lemma {:induction false} RunSplit(w: World, a: seq<Event>, b: seq<Event>)
    ensures Run(w, a + b) == Run(Run(w, a), b)
    decreases |a|
  {
    hide Step;
    if a == [] {
      assert a + b == b;
    } else {
      assert (a + b)[0] == a[0] && (a + b)[1..] == a[1..] + b;
      RunSplit(Step(w, a[0]), a[1..], b);
    }
  }

  lemma {:induction false} BufferFlat(w: World, c: nat, cmd: Command, refusals: nat -> bool)
    requires c in w.clients && ClientOk(w.clients[c]) && cmd.msg != MSG_EOF && w.clients[c].begins > 0
    ensures Run(Erase(w), Flat(w, Input(c, cmd, refusals))) == Erase(Settle(Buffer(w, c, cmd, refusals), c))
  {
    hide Playback, Played, Step;
    var cl := w.clients[c];
    if cmd.msg == CMD_COMMIT {
      var w' := Set(w, c, cl.(begins := cl.begins - 1));
      EraseMap(w'.clients, Erase(w).clients);
      assert Erase(w') == Erase(w);
      if cl.begins == 1 { PlaybackFlat(w', c, 0, refusals); }
    } else {
      EraseMap(Buffer(w, c, cmd, refusals).w.clients, Erase(w).clients);
    }
  }

  /** What an event does that clients can see is what its direct commands do. */
  lemma {:induction false} StepFlat(w: World, e: Event)
    requires Ok(w)
    ensures Run(Erase(w), Flat(w, e)) == Erase(Step(w, e))
  {
    hide Direct, Buffer, Settle, StoreOk, Played;
    match e {
      case Connect(c, text) =>
        RunOne(Erase(w), e);
        EraseMap(Step(w, e).clients, Step(Erase(w), e).clients);
      case Input(c, cmd, refusals) =>
        if c in w.clients {
          if cmd.msg != MSG_EOF && w.clients[c].begins > 0 {
            BufferFlat(w, c, cmd, refusals);
          } else if cmd.msg == CMD_BEGIN {
            BeginShows(w, c, cmd, refusals(0));
          } else {
            RunOne(Erase(w), e);
            StepErases(w, c, cmd, refusals);
          }
        }
    }
  }

  lemma {:induction false} BeginShows(w: World, c: nat, cmd: Command, refused: bool)
    requires c in w.clients && cmd.msg == CMD_BEGIN
    ensures Erase(Settle(Direct(w, c, cmd, refused), c)) == Erase(w)
  {
    EraseMap(Settle(Direct(w, c, cmd, refused), c).clients, Erase(w).clients);
  }

  /** Nothing that a client sends between BEGIN and the outermost COMMIT can be seen. */
  lemma {:induction false} TransactionSilent(w: World, c: nat, cmd: Command, refusals: nat -> bool)
    requires Ok(w) && c in w.clients && w.clients[c].begins > 0 && cmd.msg != MSG_EOF
    requires cmd.msg == CMD_COMMIT ==> w.clients[c].begins > 1
    ensures Erase(Step(w, Input(c, cmd, refusals))) == Erase(w)
  {
    hide Erase, Ok, Step;
    StepFlat(w, Input(c, cmd, refusals));
  }

  /** Transactions are atomic, and a commit means its commands: whatever clients do and however their
      commands interleave, the store, the subscriptions and all output are those of a run without any
      BEGIN, in which each transaction's commands stand together where its outermost COMMIT was. */
  lemma {:induction false} TransactionsFlatten(w: World, es: seq<Event>)
    requires Ok(w) && forall k :: 0 <= k < |es| ==> EventOk(es[k])
    ensures Run(Erase(w), Flatten(w, es)) == Erase(Run(w, es))
    decreases |es|
  {
    hide Ok, Step, EventOk, Flat, Erase;
    if es != [] {
      StepOk(w, es[0]);
      StepFlat(w, es[0]);
      var rest := Flatten(Step(w, es[0]), es[1..]);
      assert forall k :: 0 <= k < |es[1..]| ==> es[1..][k] == es[k + 1];
      TransactionsFlatten(Step(w, es[0]), es[1..]);
      RunSplit(Erase(w), Flat(w, es[0]), rest);
    }
  }

  ghost function Cmds(es: seq<Event>): (r: seq<Command>)
    requires forall k :: 0 <= k < |es| ==> es[k].Input?
    ensures |r| == |es| && forall k :: 0 <= k < |es| ==> r[k] == es[k].cmd
  {
    if es == [] then [] else [es[0].cmd] + Cmds(es[1..])
  }
}
