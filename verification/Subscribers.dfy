/** Subscribers know the store: replaying the INFO messages that a client got since it subscribed gives
    the store's contents, as far as the subscription's pattern goes. */
module Subscribers {
  import opened Bytes
  import opened Entries
  import opened Infod
  import opened InfodRuns
  import Matcher

  /** What a client knows after an INFO message: with a NUL it sets a key, without it deletes one. */
  function Learn(seen: Contents, o: Out): (r: Contents)
  {
    if !o.Info? then seen
    else if 0 in o.data then seen[KeyOf(o.data) := o.data]
    else seen - {o.data}
  }

  function Replay(seen: Contents, outs: seq<Out>): (r: Contents)
    decreases |outs|
  {
    if outs == [] then seen else Replay(Learn(seen, outs[0]), outs[1..])
  }

  lemma {:induction false} ReplaySplit(seen: Contents, a: seq<Out>, b: seq<Out>)
    ensures Replay(seen, a + b) == Replay(Replay(seen, a), b)
    decreases |a|
  {
    hide Learn;
    if a == [] {
      assert a + b == b;
    } else {
      assert (a + b)[0] == a[0] && (a + b)[1..] == a[1..] + b;
      ReplaySplit(Learn(seen, a[0]), a[1..], b);
    }
  }

  /** The keys a subscription is about and the store can hold. */
  predicate InView(p: seq<byte>, key: seq<byte>)
  {
    Matcher.Hits(p, key) && !BangKey(key)
  }

  ghost predicate AgreesAt(seen: Contents, m: Contents, k: seq<byte>)
  {
    (k in seen <==> k in m) && (k in m ==> seen[k] == m[k])
  }

  /** What a client has seen is the store, as far as its pattern p goes. */
  ghost predicate Agrees(p: seq<byte>, seen: Contents, m: Contents)
  {
    forall k :: InView(p, k) ==> AgreesAt(seen, m, k)
  }

  function Subject(o: Out): (r: seq<byte>)
  {
    if o.Info? then KeyOf(o.data) else []
  }

  lemma {:induction false} NoNulIsKey(data: seq<byte>)
    requires 0 !in data
    ensures KeyOf(data) == data
  {
    if data != [] {
      assert forall k :: 0 <= k < |data[1..]| ==> data[1..][k] == data[k + 1];
      NoNulIsKey(data[1..]);
    }
  }

  /** A message tells nothing about other keys. */
  lemma {:induction false} LearnOthers(seen: Contents, o: Out, m: Contents, k: seq<byte>)
    requires AgreesAt(seen, m, k) && (!o.Info? || Subject(o) != k)
    ensures AgreesAt(Learn(seen, o), m, k)
  {
    hide KeyOf;
    if o.Info? && 0 !in o.data { NoNulIsKey(o.data); }
  }

  /** A message is true of a store when it says what the store holds under its key. */
  ghost predicate True(o: Out, m: Contents)
  {
    o.Info? ==>
      if 0 in o.data then KeyOf(o.data) in m && m[KeyOf(o.data)] == o.data
      else o.data !in m
  }

  lemma {:induction false} LearnTruth(seen: Contents, o: Out, m: Contents)
    requires o.Info? && True(o, m)
    ensures AgreesAt(Learn(seen, o), m, Subject(o))
  {
    hide KeyOf;
    if 0 !in o.data { NoNulIsKey(o.data); }
  }

  lemma {:induction false} LearnTrue(p: seq<byte>, seen: Contents, o: Out, m: Contents)
    requires Agrees(p, seen, m) && (True(o, m) || !InView(p, Subject(o)))
    ensures Agrees(p, Learn(seen, o), m)
  {
    hide KeyOf, Matcher.Hits, Learn, AgreesAt, Subject, True;
    forall k | InView(p, k) ensures AgreesAt(Learn(seen, o), m, k) {
      if o.Info? && Subject(o) == k { LearnTruth(seen, o, m); } else { LearnOthers(seen, o, m, k); }
    }
  }

  /** True messages keep what a client knows. */
  lemma {:induction false} ReplayTrue(p: seq<byte>, seen: Contents, outs: seq<Out>, m: Contents)
    requires Agrees(p, seen, m)
    requires forall k :: 0 <= k < |outs| ==> True(outs[k], m) || !InView(p, Subject(outs[k]))
    ensures Agrees(p, Replay(seen, outs), m)
    decreases |outs|
  {
    hide Agrees, Learn, True, InView, Subject;
    if outs != [] {
      LearnTrue(p, seen, outs[0], m);
      assert forall k :: 0 <= k < |outs[1..]| ==> outs[1..][k] == outs[k + 1];
      ReplayTrue(p, Learn(seen, outs[0]), outs[1..], m);
    }
  }

  lemma {:induction false} ListsTrue(es: seq<seq<byte>>, m: Contents)
    requires Lists(es, m)
    ensures forall k :: 0 <= k < |es| ==> True(Info(es[k]), m)
  {
    ToMapKeys(es);
  }

  /** Message o brings the i-th entry, and the pattern matches its key. */
  ghost predicate Brings(p: seq<byte>, es: seq<seq<byte>>, o: Out, i: nat)
  {
    i < |es| && o == Info(es[i]) && Matcher.Hits(p, KeyOf(es[i]))
  }

  lemma {:induction false} MatchingMembers(p: seq<byte>, es: seq<seq<byte>>, k: nat) returns (i: nat)
    requires k < |Matching(p, es)|
    ensures Brings(p, es, Matching(p, es)[k], i)
  {
    hide Matcher.Hits, KeyOf;
    var n := |es| - 1;
    if k < |Matching(p, es[..n])| {
      i := MatchingMembers(p, es[..n], k);
    } else {
      i := n;
    }
  }

  /** Everything that a new subscription sends is true. */
  lemma {:induction false} MatchingTrue(p: seq<byte>, m: Contents)
    requires StoreOk(m)
    ensures forall k :: 0 <= k < |Matching(p, Listing(m))| ==> True(Matching(p, Listing(m))[k], m)
  {
    hide True, Lists;
    var es := Listing(m);
    ListsTrue(es, m);
    forall k | 0 <= k < |Matching(p, es)| ensures True(Matching(p, es)[k], m) {
      var i := MatchingMembers(p, es, k);
    }
  }

  lemma {:induction false} ToMapLast(es: seq<seq<byte>>)
    requires es != []
    ensures ToMap(es) == ToMap(es[..|es| - 1])[KeyOf(es[|es| - 1]) := es[|es| - 1]]
  {
    hide KeyOf;
    var n := |es| - 1;
    assert Keys(es)[..n] == Keys(es[..n]);
  }

  lemma {:induction false} LearnGrows(p: seq<byte>, seen: Contents, m: Contents, kv: seq<byte>)
    requires Agrees(p, seen, m) && 0 in kv
    ensures Agrees(p, if Matcher.Hits(p, KeyOf(kv)) then Learn(seen, Info(kv)) else seen, m[KeyOf(kv) := kv])
  {
    hide KeyOf, Matcher.Hits;
  }

  lemma {:induction false} EmptyAgrees(p: seq<byte>)
    ensures Agrees(p, map[], ToMap([]))
  {
  }

  /** And it is everything in the store that the subscription is about. */
  lemma {:induction false} MatchingAgrees(p: seq<byte>, es: seq<seq<byte>>)
    requires forall i :: 0 <= i < |es| ==> 0 in es[i]
    ensures Agrees(p, Replay(map[], Matching(p, es)), ToMap(es))
    decreases |es|
  {
    hide Agrees, Learn, Matcher.Hits, ToMap, KeyOf;
    if es == [] {
      EmptyAgrees(p);
    } else {
      var n := |es| - 1;
      MatchingAgrees(p, es[..n]);
      ToMapLast(es);
      var seen := Replay(map[], Matching(p, es[..n]));
      LearnGrows(p, seen, ToMap(es[..n]), es[n]);
      if Matcher.Hits(p, KeyOf(es[n])) {
        ReplaySplit(map[], Matching(p, es[..n]), [Info(es[n])]);
        assert [Info(es[n])][1..] == [];
      } else {
        assert Matching(p, es[..n]) + [] == Matching(p, es[..n]);
      }
    }
  }

  // ---- one command ----------------------------------------------------------------------------------

  /** A reply only adds messages, and these are true of the store before the command. */
  lemma {:induction false} ReplyTrue(cl: Client, m: Contents, cmd: Command, refused: bool)
    requires StoreOk(m) && Act(cl, m, cmd, refused).Reply?
    ensures var out := Act(cl, m, cmd, refused).cl.out;
            cl.out <= out && forall k :: |cl.out| <= k < |out| ==> True(out[k], m)
  {
    hide Matching, Listing, FindSub, Matcher.Parse, StoreOk;
    MatchingTrue(cmd.data, m);
    if cmd.msg == CMD_READ && 0 !in cmd.data && cmd.data in m { StoredTrue(m, cmd.data); }
  }

  lemma {:induction false} StoredTrue(m: Contents, k: seq<byte>)
    requires StoreOk(m) && k in m
    ensures 0 in m[k] && KeyOf(m[k]) == k
  {
    hide KeyOf, Assoc.ToMap;
    var es :| Lists(es, m);
    ToMapKeys(es);
    var i :| 0 <= i < |es| && Keys(es)[i] == k;
    assert m[k] == es[i];
  }

  /** READ answers with one true message about the key. */
  lemma {:induction false} ReadTells(cl: Client, m: Contents, key: seq<byte>)
    requires StoreOk(m) && 0 !in key
    ensures var e := Read(cl, m, key);
            e.store == m && e.ret == 1 && |e.cl.out| == |cl.out| + 1 && e.cl.out[..|cl.out|] == cl.out &&
            e.cl.out[|cl.out|].Info? && Subject(e.cl.out[|cl.out|]) == key && True(e.cl.out[|cl.out|], m)
  {
    hide StoreOk, KeyOf;
    NoNulIsKey(key);
    if key in m { StoredTrue(m, key); }
  }

  /** UNSUB takes out one subscription with the pattern, the newest, and no other; without one it does
      nothing. */
  lemma {:induction false} UnsubscribeOne(cl: Client, m: Contents, p: seq<byte>)
    ensures var subs := Unsubscribe(cl, m, p).cl.subs;
            if p !in cl.subs then Unsubscribe(cl, m, p) == Reply(cl, m, 1)
            else multiset(cl.subs) == multiset(subs) + multiset{p} &&
                 exists k :: 0 <= k < |cl.subs| && cl.subs[k] == p && p !in cl.subs[..k] && subs == cl.subs[..k] + cl.subs[k + 1..]
  {
    hide FindSub;
    FindSubs(cl.subs, p);
    var k := FindSub(cl.subs, p);
    if p in cl.subs { assert cl.subs == cl.subs[..k] + [p] + cl.subs[k + 1..]; }
  }

  lemma {:induction false} FindSubs(subs: seq<seq<byte>>, p: seq<byte>)
    ensures var k := FindSub(subs, p);
            k <= |subs| && p !in subs[..k] && (p in subs ==> k < |subs| && subs[k] == p) && (p !in subs ==> k == |subs|)
  {
  }

  lemma {:induction false} NotifiedSame(subs: seq<seq<byte>>, data: seq<byte>, k: nat)
    requires k < |Notified(subs, data)|
    ensures Notified(subs, data)[k] == Info(data)
  {
    hide Matcher.Hits, KeyOf;
    var n := |subs| - 1;
    if k < |Notified(subs[..n], data)| { NotifiedSame(subs[..n], data, k); }
  }

  lemma {:induction false} NotifiedSome(subs: seq<seq<byte>>, data: seq<byte>, p: seq<byte>)
    requires p in subs && Matcher.Hits(p, KeyOf(data))
    ensures Notified(subs, data) != []
  {
    hide Matcher.Hits, KeyOf;
    var n := |subs| - 1;
    if subs[n] != p { NotifiedSome(subs[..n], data, p); }
  }

  /** m' is m after an effective write of data. */
  ghost predicate Written(m: Contents, data: seq<byte>, m': Contents)
  {
    (forall k :: k != KeyOf(data) ==> AgreesAt(m, m', k)) &&
    (BangKey(KeyOf(data)) || True(Info(data), m'))
  }

  lemma {:induction false} LearnWritten(p: seq<byte>, seen: Contents, m: Contents, data: seq<byte>, m': Contents)
    requires Agrees(p, seen, m) && Written(m, data, m')
    ensures InView(p, KeyOf(data)) ==> Agrees(p, Learn(seen, Info(data)), m')
    ensures !InView(p, KeyOf(data)) ==> Agrees(p, seen, m')
  {
    hide KeyOf, Matcher.Hits, Learn, True;
    forall k | InView(p, k) && k != KeyOf(data) ensures AgreesAt(seen, m', k) && AgreesAt(Learn(seen, Info(data)), m', k) {
      assert AgreesAt(seen, m, k) && AgreesAt(m, m', k);
      LearnOthers(seen, Info(data), m', k);
    }
    if InView(p, KeyOf(data)) { LearnTruth(seen, Info(data), m'); }
  }

  lemma {:induction false} WrittenTrue(m: Contents, data: seq<byte>, m': Contents)
    requires Written(m, data, m') && !BangKey(KeyOf(data))
    ensures True(Info(data), m')
  {
  }

  /** The notices of a write bring a subscriber up to date. */
  lemma {:induction false} NoticesAgree(p: seq<byte>, subs: seq<seq<byte>>, seen: Contents, m: Contents, data: seq<byte>,
                                        m': Contents)
    requires Agrees(p, seen, m) && Written(m, data, m') && p in subs
    ensures Agrees(p, Replay(seen, Notified(subs, data)), m')
  {
    hide Agrees, KeyOf, Matcher.Hits, Learn, Written, True, Notified;
    LearnWritten(p, seen, m, data, m');
    var outs := Notified(subs, data);
    forall k | 0 <= k < |outs| ensures outs[k] == Info(data) { NotifiedSame(subs, data, k); }
    if InView(p, KeyOf(data)) {
      NotifiedSome(subs, data, p);
      WrittenTrue(m, data, m');
      ReplayTrue(p, Learn(seen, outs[0]), outs[1..], m');
    } else {
      ReplayTrue(p, seen, outs, m');
    }
  }

  lemma {:induction false} NotifyWrites(cl: Client, m: Contents, cmd: Command, refused: bool)
    requires Act(cl, m, cmd, refused).Notify?
    ensures var e := Act(cl, m, cmd, refused); Written(m, e.data, e.store)
  {
    hide KeyOf, Matching, Listing, FindSub, Matcher.Parse;
    if 0 !in cmd.data { NoNulIsKey(cmd.data); }
  }

  // ---- worlds ---------------------------------------------------------------------------------------

  /** The messages that client c got from start on tell it the store, as far as p goes. */
  ghost predicate Coherent(w: World, c: nat, p: seq<byte>, start: nat)
  {
    c in w.clients && start <= |w.clients[c].out| &&
    Agrees(p, Replay(map[], w.clients[c].out[start..]), w.store)
  }

  /** A put that the store refuses in the middle of replacing an entry: the entry is lost. */
  predicate Loses(p: seq<byte>, m: Contents, cmd: Command, refused: bool)
  {
    refused && cmd.msg == CMD_WRITE && 0 in cmd.data && InView(p, KeyOf(cmd.data)) &&
    KeyOf(cmd.data) in m && m[KeyOf(cmd.data)] != cmd.data
  }

  lemma {:induction false} OutExtends(out: seq<Out>, more: seq<Out>, start: nat)
    requires start <= |out|
    ensures Replay(map[], (out + more)[start..]) == Replay(Replay(map[], out[start..]), more)
  {
    assert (out + more)[start..] == out[start..] + more;
    ReplaySplit(map[], out[start..], more);
  }

  /** After a command that is answered, the client knows what it knew. */
  lemma {:induction false} ReplyCoherent(cl: Client, m: Contents, cmd: Command, refused: bool, p: seq<byte>, start: nat)
    requires StoreOk(m) && Act(cl, m, cmd, refused).Reply? && start <= |cl.out|
    requires Agrees(p, Replay(map[], cl.out[start..]), m)
    ensures var e := Act(cl, m, cmd, refused);
            start <= |e.cl.out| && Agrees(p, Replay(map[], e.cl.out[start..]), m)
  {
    hide StoreOk, Act, Agrees, Replay, True;
    ReplyTrue(cl, m, cmd, refused);
    var e := Act(cl, m, cmd, refused);
    var more := e.cl.out[|cl.out|..];
    assert e.cl.out == cl.out + more;
    assert forall k :: 0 <= k < |more| ==> more[k] == e.cl.out[|cl.out| + k];
    OutExtends(cl.out, more, start);
    ReplayTrue(p, Replay(map[], cl.out[start..]), more, m);
  }

  /** A refused put is the only answer that changes the store, and it takes a key out of it. */
  lemma {:induction false} ReplyStore(cl: Client, m: Contents, cmd: Command, refused: bool, p: seq<byte>, seen: Contents)
    requires Act(cl, m, cmd, refused).Reply? && Agrees(p, seen, m)
    ensures Agrees(p, seen, Act(cl, m, cmd, refused).store) <==> !Loses(p, m, cmd, refused)
  {
    hide Matching, Listing, FindSub, Matcher.Parse, KeyOf, Matcher.Hits;
    var m' := Act(cl, m, cmd, refused).store;
    if Loses(p, m, cmd, refused) {
      var k := KeyOf(cmd.data);
      assert AgreesAt(seen, m, k);
      assert k !in m';
    } else {
      forall k | InView(p, k) ensures AgreesAt(seen, m', k) {
        assert AgreesAt(seen, m, k);
      }
    }
  }

  /** A command of client a keeps subscriber c up to date, exactly unless it is a refused put that loses
      an entry that c subscribes to. */
  lemma {:induction false} DirectCoherent(w: World, a: nat, cmd: Command, refused: bool, c: nat, p: seq<byte>, start: nat)
    requires Ok(w) && a in w.clients && Coherent(w, c, p, start) && p in w.clients[c].subs
    ensures Coherent(Direct(w, a, cmd, refused).w, c, p, start) <==> !Loses(p, w.store, cmd, refused)
  {
    hide Act, Agrees, Replay, Loses, StoreOk, ClientOk, Notified;
    var e := Act(w.clients[a], w.store, cmd, refused);
    var cl := w.clients[c];
    var seen := Replay(map[], cl.out[start..]);
    if e.Reply? {
      ReplyStore(w.clients[a], w.store, cmd, refused, p, seen);
      if a == c {
        ReplyCoherent(cl, w.store, cmd, refused, p, start);
        ReplyStore(cl, w.store, cmd, refused, p, Replay(map[], e.cl.out[start..]));
      }
    } else {
      NotifyWrites(w.clients[a], w.store, cmd, refused);
      NotifyNotLost(w.clients[a], w.store, cmd, refused, p);
      OutExtends(cl.out, Notified(cl.subs, e.data), start);
      NoticesAgree(p, cl.subs, seen, w.store, e.data, e.store);
    }
  }

  lemma {:induction false} NotifyNotLost(cl: Client, m: Contents, cmd: Command, refused: bool, p: seq<byte>)
    requires Act(cl, m, cmd, refused).Notify?
    ensures !Loses(p, m, cmd, refused)
  {
    hide KeyOf, Matching, Listing, FindSub, Matcher.Parse, Matcher.Hits;
  }

  /** A subscription starts out knowing the store. */
  lemma {:induction false} SubscribeCoherent(w: World, c: nat, p: seq<byte>, refused: bool)
    requires Ok(w) && c in w.clients && 0 !in p && Matcher.Parse(p).Some? && |w.clients[c].subs| <= MAX_SUBS
    ensures var o := Direct(w, c, Command(CMD_SUB, p), refused);
            o.ret == 1 && p in o.w.clients[c].subs && Coherent(o.w, c, p, |w.clients[c].out|)
  {
    hide Agrees, Replay, Matching, Listing, Matcher.Hits, ToMap, Matcher.Parse;
    var cl := w.clients[c];
    assert ClientOk(cl);
    var es := Listing(w.store);
    assert Lists(es, w.store);
    MatchingAgrees(p, es);
    var out := Direct(w, c, Command(CMD_SUB, p), refused).w.clients[c].out;
    assert out[|cl.out|..] == Matching(p, es);
  }

  /** Only the client's own UNSUB takes its subscription away. */
  lemma {:induction false} ActKeepsSub(cl: Client, m: Contents, cmd: Command, refused: bool, p: seq<byte>)
    requires p in cl.subs && cmd != Command(CMD_UNSUB, p) && Act(cl, m, cmd, refused).Reply?
    ensures p in Act(cl, m, cmd, refused).cl.subs
  {
    hide Matching, Listing, Matcher.Parse, KeyOf;
    if cmd.msg == CMD_UNSUB {
      var k := FindSub(cl.subs, cmd.data);
      if k < |cl.subs| {
        assert cl.subs == cl.subs[..k] + [cl.subs[k]] + cl.subs[k + 1..];
      }
    }
  }

  lemma {:induction false} DirectKeepsSub(w: World, a: nat, cmd: Command, refused: bool, c: nat, p: seq<byte>)
    requires a in w.clients && c in w.clients && p in w.clients[c].subs
    requires a != c || cmd != Command(CMD_UNSUB, p)
    ensures var o := Direct(w, a, cmd, refused); c in o.w.clients && p in o.w.clients[c].subs
  {
    hide Act, Notified;
    if a == c && Act(w.clients[a], w.store, cmd, refused).Reply? { ActKeepsSub(w.clients[c], w.store, cmd, refused, p); }
  }

  // ---- runs -----------------------------------------------------------------------------------------

  /** An event that does not end c's subscription to p, or reuse its number. */
  ghost predicate Undisturbed(e: Event, c: nat, p: seq<byte>)
  {
    match e
    case Connect(d, _) => d != c
    case Input(d, cmd, _) => d == c ==> cmd != Command(CMD_UNSUB, p)
  }

  /** No entry that p is about is lost to a refused put. */
  ghost predicate Lossless(w: World, es: seq<Event>, p: seq<byte>)
    decreases |es|
  {
    es == [] ||
    ((es[0].Input? ==> !Loses(p, w.store, es[0].cmd, es[0].refusals(0))) && Lossless(Step(w, es[0]), es[1..], p))
  }

  /** No transaction is open. */
  ghost predicate Flatness(w: World)
  {
    forall d :: d in w.clients ==> w.clients[d].begins == 0
  }

  ghost predicate Plain(e: Event)
  {
    EventOk(e) && (e.Input? ==> e.cmd.msg != CMD_BEGIN)
  }

  lemma {:induction false} DirectFlatness(w: World, c: nat, cmd: Command, refused: bool)
    requires Flatness(w) && c in w.clients && cmd.msg != CMD_BEGIN
    ensures Flatness(Settle(Direct(w, c, cmd, refused), c))
  {
    hide Act, Notified;
    ActKeepsBuf(w.clients[c], w.store, cmd, refused);
  }

  lemma {:induction false} StepFlatness(w: World, e: Event)
    requires Flatness(w) && Plain(e)
    ensures Flatness(Step(w, e))
  {
    hide Direct, Settle;
    if e.Input? && e.c in w.clients { DirectFlatness(w, e.c, e.cmd, e.refusals(0)); }
  }

  lemma {:induction false} StepCoherent(w: World, e: Event, c: nat, p: seq<byte>, start: nat)
    requires Ok(w) && Flatness(w) && Plain(e) && Undisturbed(e, c, p)
    requires e.Input? ==> !Loses(p, w.store, e.cmd, e.refusals(0))
    requires Coherent(w, c, p, start) && p in w.clients[c].subs
    ensures c in Step(w, e).clients ==> Coherent(Step(w, e), c, p, start) && p in Step(w, e).clients[c].subs
  {
    hide Direct, Ok, Agrees, Replay, Loses;
    if e.Input? && e.c in w.clients {
      DirectCoherent(w, e.c, e.cmd, e.refusals(0), c, p, start);
      DirectKeepsSub(w, e.c, e.cmd, e.refusals(0), c, p);
    }
  }

  lemma {:induction false} DirectKeepsGone(w: World, a: nat, cmd: Command, refused: bool, c: nat)
    requires a in w.clients && c !in w.clients
    ensures c !in Settle(Direct(w, a, cmd, refused), a).clients
  {
    hide Act, Notified;
  }

  lemma {:induction false} StaysGone(w: World, es: seq<Event>, c: nat, p: seq<byte>)
    requires Flatness(w) && c !in w.clients
    requires forall k :: 0 <= k < |es| ==> Plain(es[k]) && Undisturbed(es[k], c, p)
    ensures c !in Run(w, es).clients
    decreases |es|
  {
    hide Direct, Settle, Flatness;
    if es != [] {
      var e := es[0];
      StepFlatness(w, e);
      if e.Input? && e.c in w.clients {
        assert Step(w, e) == Settle(Direct(w, e.c, e.cmd, e.refusals(0)), e.c) by { FlatStep(w, e); }
        DirectKeepsGone(w, e.c, e.cmd, e.refusals(0), c);
      }
      assert forall k :: 0 <= k < |es[1..]| ==> es[1..][k] == es[k + 1];
      StaysGone(Step(w, e), es[1..], c, p);
    }
  }

  lemma {:induction false} FlatStep(w: World, e: Event)
    requires Flatness(w) && e.Input? && e.c in w.clients
    ensures Step(w, e) == Settle(Direct(w, e.c, e.cmd, e.refusals(0)), e.c)
  {
    hide Direct, Settle, Buffer;
  }

  lemma {:induction false} PlainRunCoherent(w: World, es: seq<Event>, c: nat, p: seq<byte>, start: nat)
    requires Ok(w) && Flatness(w) && Lossless(w, es, p)
    requires forall k :: 0 <= k < |es| ==> Plain(es[k]) && Undisturbed(es[k], c, p)
    requires Coherent(w, c, p, start) && p in w.clients[c].subs
    requires c in Run(w, es).clients
    ensures Coherent(Run(w, es), c, p, start) && p in Run(w, es).clients[c].subs
    decreases |es|
  {
    hide Step, Ok, Flatness, Plain, Undisturbed, Coherent, Loses;
    if es != [] {
      var e := es[0];
      var w' := Step(w, e);
      assert forall k :: 0 <= k < |es[1..]| ==> es[1..][k] == es[k + 1];
      assert Plain(e) && Undisturbed(e, c, p);
      PlainOk(w, e);
      StepFlatness(w, e);
      StepCoherent(w, e, c, p, start);
      if c !in w'.clients { StaysGone(w', es[1..], c, p); }
      PlainRunCoherent(w', es[1..], c, p, start);
    }
  }

  lemma {:induction false} PlainOk(w: World, e: Event)
    requires Ok(w) && Plain(e)
    ensures Ok(Step(w, e))
  {
    hide Ok, Step;
    StepOk(w, e);
  }

  lemma {:induction false} EraseOk(w: World)
    requires Ok(w)
    ensures Ok(Erase(w)) && Flatness(Erase(w))
  {
    hide StoreOk, SubsOk;
  }

  lemma {:induction false} FlatPlain(w: World, e: Event)
    requires Ok(w) && EventOk(e)
    ensures forall k :: 0 <= k < |Flat(w, e)| ==> Plain(Flat(w, e)[k])
  {
    hide StoreOk, SubsOk;
  }

  lemma {:induction false} FlattenPlain(w: World, es: seq<Event>)
    requires Ok(w) && forall k :: 0 <= k < |es| ==> EventOk(es[k])
    ensures forall k :: 0 <= k < |Flatten(w, es)| ==> Plain(Flatten(w, es)[k])
    decreases |es|
  {
    hide Ok, EventOk, Step, Flat, Plain;
    if es != [] {
      StepOk(w, es[0]);
      FlatPlain(w, es[0]);
      assert forall k :: 0 <= k < |es[1..]| ==> es[1..][k] == es[k + 1];
      FlattenPlain(Step(w, es[0]), es[1..]);
    }
  }

  /** Subscribers know the store, in every run: from any moment at which a subscriber's messages tell it
      the store, they go on doing so while the subscription and the connection last, whatever all
      clients do and in whatever transactions, as long as no refused put loses an entry that it is about. */
  lemma {:induction false} SubscribersKnowStore(w: World, es: seq<Event>, c: nat, p: seq<byte>, start: nat)
    requires Ok(w) && forall k :: 0 <= k < |es| ==> EventOk(es[k])
    requires Coherent(w, c, p, start) && p in w.clients[c].subs
    requires forall k :: 0 <= k < |Flatten(w, es)| ==> Undisturbed(Flatten(w, es)[k], c, p)
    requires Lossless(Erase(w), Flatten(w, es), p)
    requires c in Run(w, es).clients
    ensures Coherent(Run(w, es), c, p, start) && p in Run(w, es).clients[c].subs
  {
    hide Ok, EventOk, Flatten, Run, Plain, Undisturbed, Flatness, Agrees, Replay, Lossless;
    TransactionsFlatten(w, es);
    FlattenPlain(w, es);
    EraseOk(w);
    PlainRunCoherent(Erase(w), Flatten(w, es), c, p, start);
  }

  lemma {:induction false} RunPlain(w: World, es: seq<Event>)
    requires Ok(w) && Flatness(w) && forall k :: 0 <= k < |es| ==> Plain(es[k])
    ensures Ok(Run(w, es)) && Flatness(Run(w, es))
    decreases |es|
  {
    hide Step, Ok, Flatness, Plain;
    if es != [] {
      assert Plain(es[0]);
      PlainOk(w, es[0]);
      StepFlatness(w, es[0]);
      assert forall k :: 0 <= k < |es[1..]| ==> es[1..][k] == es[k + 1];
      RunPlain(Step(w, es[0]), es[1..]);
    }
  }

  /** A SUB that the daemon accepts: room for one more subscription, and a valid pattern. */
  ghost predicate Accepts(w: World, c: nat, p: seq<byte>)
  {
    c in w.clients && |w.clients[c].subs| <= MAX_SUBS && 0 !in p && Matcher.Parse(p).Some?
  }

  lemma {:induction false} StepSubscribes(w: World, e: Event, c: nat, p: seq<byte>)
    requires Ok(w) && Flatness(w) && e.Input? && e.c == c && e.cmd == Command(CMD_SUB, p) && Accepts(w, c, p)
    ensures Coherent(Step(w, e), c, p, |w.clients[c].out|) && p in Step(w, e).clients[c].subs
  {
    hide Direct, Ok, Flatness, Agrees, Replay, Step, Coherent;
    FlatStep(w, e);
    SubscribeCoherent(w, c, p, e.refusals(0));
  }

  lemma {:induction false} PlainSubCoherent(w: World, es: seq<Event>, i: nat, c: nat, p: seq<byte>)
    requires Ok(w) && Flatness(w) && i < |es| && forall k :: 0 <= k < |es| ==> Plain(es[k])
    requires es[i].Input? && es[i].c == c && es[i].cmd == Command(CMD_SUB, p) && Accepts(Run(w, es[..i]), c, p)
    requires forall k :: i < k < |es| ==> Undisturbed(es[k], c, p)
    requires Lossless(Run(w, es[..i + 1]), es[i + 1..], p) && c in Run(w, es).clients
    ensures Coherent(Run(w, es), c, p, |Run(w, es[..i]).clients[c].out|) && p in Run(w, es).clients[c].subs
  {
    hide Step, Ok, Flatness, Plain, Undisturbed, Coherent, Lossless, Run;
    var u, u' := Run(w, es[..i]), Run(w, es[..i + 1]);
    RunPlain(w, es[..i]);
    assert es[..i + 1] == es[..i] + [es[i]];
    RunSplit(w, es[..i], [es[i]]);
    RunOne(u, es[i]);
    StepSubscribes(u, es[i], c, p);
    RunPlain(w, es[..i + 1]);
    assert es == es[..i + 1] + es[i + 1..];
    RunSplit(w, es[..i + 1], es[i + 1..]);
    var rest := es[i + 1..];
    forall k | 0 <= k < |rest| ensures Plain(rest[k]) && Undisturbed(rest[k], c, p) { assert rest[k] == es[i + 1 + k]; }
    PlainRunCoherent(u', es[i + 1..], c, p, |u.clients[c].out|);
  }

  /** The i-th command of the run to take effect, in a transaction or not, is a SUB to p that client c
      sent and the daemon accepts; after it nothing ends the subscription or the connection. */
  ghost predicate Subscribed(w: World, es: seq<Event>, i: nat, c: nat, p: seq<byte>)
  {
    var f := Flatten(w, es);
    i < |f| && f[i].Input? && f[i].c == c && f[i].cmd == Command(CMD_SUB, p) &&
    Accepts(Run(Erase(w), f[..i]), c, p) &&
    (forall k :: i < k < |f| ==> Undisturbed(f[k], c, p)) &&
    c in Run(w, es).clients
  }

  /** How many messages the client had got when that SUB took effect. */
  ghost function SentBefore(w: World, es: seq<Event>, i: nat, c: nat, p: seq<byte>): (r: nat)
    requires Subscribed(w, es, i, c, p)
  {
    |Run(Erase(w), Flatten(w, es)[..i]).clients[c].out|
  }

  /** From its SUB on, in every run: whatever all clients do, and whether the SUB and the writes stand in
      transactions or not, the messages that a client got since an accepted SUB tell it the store, until
      its UNSUB or the end of the connection, as long as no refused put loses an entry that it is about. */
  lemma {:induction false} SubscriptionTellsStore(w: World, es: seq<Event>, i: nat, c: nat, p: seq<byte>)
    requires Ok(w) && forall k :: 0 <= k < |es| ==> EventOk(es[k])
    requires Subscribed(w, es, i, c, p)
    requires Lossless(Run(Erase(w), Flatten(w, es)[..i + 1]), Flatten(w, es)[i + 1..], p)
    ensures Coherent(Run(w, es), c, p, SentBefore(w, es, i, c, p)) && p in Run(w, es).clients[c].subs
  {
    hide Ok, EventOk, Flatten, Run, Plain, Undisturbed, Flatness, Agrees, Replay, Lossless;
    TransactionsFlatten(w, es);
    FlattenPlain(w, es);
    EraseOk(w);
    PlainSubCoherent(Erase(w), Flatten(w, es), i, c, p);
  }

  /** A command that the store does not refuse. */
  ghost predicate Obliging(e: Event)
  {
    e.Input? ==> !e.refusals(0)
  }

  /** Without refusals nothing is lost. */
  lemma {:induction false} ObligingLossless(w: World, es: seq<Event>, p: seq<byte>)
    requires forall k :: 0 <= k < |es| ==> Obliging(es[k])
    ensures Lossless(w, es, p)
    decreases |es|
  {
    hide Step;
    if es != [] {
      assert forall k :: 0 <= k < |es[1..]| ==> es[1..][k] == es[k + 1];
      ObligingLossless(Step(w, es[0]), es[1..], p);
    }
  }

  lemma {:induction false} PlayedObliges(c: nat, buf: seq<Command>, k: nat, refusals: nat -> bool)
    requires forall i :: !refusals(i)
    ensures forall i :: 0 <= i < |buf| ==> !Played(c, buf, k, refusals)[i].refusals(0)
    decreases |buf|
  {
    if buf != [] {
      var es, rest := Played(c, buf, k, refusals), Played(c, buf[1..], k + 1, refusals);
      PlayedObliges(c, buf[1..], k + 1, refusals);
      forall i | 0 <= i < |buf| ensures !es[i].refusals(0) {
        if i > 0 { assert es[i] == rest[i - 1]; }
      }
    }
  }

  lemma {:induction false} FlatObliges(w: World, e: Event)
    requires e.Input? ==> forall i :: !e.refusals(i)
    ensures forall k :: 0 <= k < |Flat(w, e)| ==> Obliging(Flat(w, e)[k])
  {
    hide Played;
    if e.Input? && e.c in w.clients { PlayedObliges(e.c, w.clients[e.c].buf, 0, e.refusals); }
  }

  lemma {:induction false} FlattenObliges(w: World, es: seq<Event>)
    requires forall k :: 0 <= k < |es| && es[k].Input? ==> forall i :: !es[k].refusals(i)
    ensures forall k :: 0 <= k < |Flatten(w, es)| ==> Obliging(Flatten(w, es)[k])
    decreases |es|
  {
    hide Step, Flat, Obliging;
    if es != [] {
      FlatObliges(w, es[0]);
      assert forall k :: 0 <= k < |es[1..]| ==> es[1..][k] == es[k + 1];
      FlattenObliges(Step(w, es[0]), es[1..]);
    }
  }

  /** So without refusals every subscription tells the store. */
  lemma {:induction false} ObligedTellsStore(w: World, es: seq<Event>, i: nat, c: nat, p: seq<byte>)
    requires Ok(w) && forall k :: 0 <= k < |es| ==> EventOk(es[k])
    requires forall k :: 0 <= k < |es| && es[k].Input? ==> forall j :: !es[k].refusals(j)
    requires Subscribed(w, es, i, c, p)
    ensures Coherent(Run(w, es), c, p, SentBefore(w, es, i, c, p)) && c in Run(w, es).clients && p in Run(w, es).clients[c].subs
  {
    hide Ok, EventOk, Flatten, Run, Agrees, Replay, Lossless, Obliging, Accepts, Undisturbed;
    FlattenObliges(w, es);
    var rest := Flatten(w, es)[i + 1..];
    forall k | 0 <= k < |rest| ensures Obliging(rest[k]) { assert rest[k] == Flatten(w, es)[i + 1 + k]; }
    ObligingLossless(Run(Erase(w), Flatten(w, es)[..i + 1]), rest, p);
    SubscriptionTellsStore(w, es, i, c, p);
  }

  /** A lost entry: the store holds one key, its subscriber knows it, and a refused put of a new value
      takes it out of the store without a word to the subscriber. */
  lemma {:induction false} RefusedPutIsSilent(w: World, a: nat, c: nat, p: seq<byte>, start: nat, data: seq<byte>)
    requires Ok(w) && a in w.clients && Coherent(w, c, p, start) && p in w.clients[c].subs
    requires 0 in data && InView(p, KeyOf(data)) && KeyOf(data) in w.store && w.store[KeyOf(data)] != data
    ensures !Coherent(Direct(w, a, Command(CMD_WRITE, data), true).w, c, p, start)
  {
    hide Direct, Ok, Coherent, KeyOf, InView;
    DirectCoherent(w, a, Command(CMD_WRITE, data), true, c, p, start);
  }

  /** One such world: the store holds "a" with an empty value, and client 0 subscribes to the pattern
      "a" and has been told. */
  ghost function ExampleWorld(): World
  {
    World(map[[0x61] := [0x61, 0]], map[0 := Client(false, [[0x61]], 1, 0, [], [Info([0x61, 0])])])
  }

  lemma {:induction false} OnlyAHits()
    ensures Matcher.Parse([0x61]).Some? && forall k: seq<byte> :: Matcher.Hits([0x61], k) <==> k == [0x61]
  {
  }

  lemma {:induction false} ExampleOk()
    ensures Ok(ExampleWorld()) && KeyOf([0x61, 0]) == [0x61]
  {
    hide Matcher.Parse, Matcher.Hits;
    var was: seq<byte> := [0x61, 0];
    assert was[1..] == [0];
    assert KeyOf(was) == [0x61];
    ToMapLast([was]);
    assert [was][..0] == [];
    assert ToMap([was]) == map[[0x61] := was];
    assert Lists([was], ExampleWorld().store);
    OnlyAHits();
    assert ClientOk(ExampleWorld().clients[0]);
  }

  lemma {:induction false} ExampleCoherent()
    ensures Coherent(ExampleWorld(), 0, [0x61], 0)
  {
    hide Matcher.Hits, KeyOf;
    ExampleOk();
    var out := ExampleWorld().clients[0].out;
    assert out[0..] == out && out[1..] == [];
    assert Replay(map[], out) == Learn(map[], out[0]);
    assert 0 in out[0].data;
    assert Learn(map[], out[0]) == ExampleWorld().store;
  }

  lemma {:induction false} RefusedPutExample()
    ensures var w, p := ExampleWorld(), [0x61];
            Ok(w) && Coherent(w, 0, p, 0) && p in w.clients[0].subs &&
            !Coherent(Direct(w, 0, Command(CMD_WRITE, [0x61, 0, 0x62]), true).w, 0, p, 0)
  {
    hide Ok, Coherent, Matcher.Hits, Direct;
    var data: seq<byte> := [0x61, 0, 0x62];
    assert data[1..] == [0, 0x62];
    assert KeyOf(data) == [0x61];
    ExampleOk();
    ExampleCoherent();
    OnlyAHits();
    RefusedPutIsSilent(ExampleWorld(), 0, 0, [0x61], 0, data);
  }
}
