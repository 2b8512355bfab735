/** What commands come to for those who send them: a READ answers with the last WRITE, over every run; a WRITE
    is told to each subscription it concerns, once; a SUB sends what it matches, once; and a connection ends
    for no other reason than an error or its own close. */
module Effects {
  import opened Bytes
  import opened Entries
  import opened Infod
  import opened InfodRuns
  import opened Subscribers
  import Matcher

  function Stored(m: Contents, key: seq<byte>): (r: Option<seq<byte>>)
  {
    if key in m then Some(m[key]) else None
  }

  /** A value whose key ends in an exclamation mark: that stands right before the first NUL. */
  ghost predicate Banged(data: seq<byte>)
  {
    exists k :: 0 < k < |data| && data[k] == 0 && data[k - 1] == 0x21 && 0 !in data[..k]
  }

  lemma {:induction false} BangedIs(data: seq<byte>)
    ensures Banged(data) <==> Ephemeral(data)
    ensures 0 in data ==> (BangKey(KeyOf(data)) <==> Banged(data))
  {
    var key := KeyOf(data);
    var n := |key|;
    KeyBefore(data);
    if Ephemeral(data) { assert data[n] == 0 && data[n - 1] == key[n - 1] && data[..n] == key; }
    if Banged(data) {
      var k :| 0 < k < |data| && data[k] == 0 && data[k - 1] == 0x21 && 0 !in data[..k];
      FirstNul(data, k);
      assert key[n - 1] == data[n - 1];
    }
  }

  lemma {:induction false} FirstNul(data: seq<byte>, k: nat)
    requires k < |data| && data[k] == 0 && 0 !in data[..k]
    ensures |KeyOf(data)| == k
  {
    hide KeyOf;
    var n := |KeyOf(data)|;
    KeyBefore(data);
    forall j | 0 <= j < k ensures data[j] != 0 { assert data[j] in data[..k]; }
    forall j | 0 <= j < n ensures data[j] != 0 { assert data[j] in data[..n]; }
  }

  lemma {:induction false} KeyBefore(data: seq<byte>)
    ensures var n := |KeyOf(data)|;
            n <= |data| && KeyOf(data) == data[..n] && 0 !in KeyOf(data) && (0 in data <==> n < |data|) && (n < |data| ==> data[n] == 0)
  {
  }

  // ---- READ after WRITE -----------------------------------------------------------------------------

  /** What client c is sent when it reads a key. */
  ghost function Answer(w: World, c: nat, key: seq<byte>): (r: seq<Out>)
    requires c in w.clients
  {
    var out := Direct(w, c, Command(CMD_READ, key), false).w.clients[c].out;
    if |w.clients[c].out| <= |out| then out[|w.clients[c].out|..] else []
  }

  lemma {:induction false} AnswerIs(w: World, c: nat, key: seq<byte>)
    requires c in w.clients && 0 !in key
    ensures Answer(w, c, key) == [Info(if key in w.store then w.store[key] else key)]
  {
    hide Subscribe, Unsubscribe, Write, Refuse;
  }

  lemma {:induction false} WriteDirect(w: World, a: nat, data: seq<byte>, refused: bool)
    requires a in w.clients
    ensures var o := Direct(w, a, Command(CMD_WRITE, data), refused);
            o == Apply(w, a, Write(w.clients[a], w.store, data, refused)) && o.w.clients.Keys == w.clients.Keys
  {
    hide Subscribe, Unsubscribe, Read, Write, Notified;
  }

  /** A value that was written is read back by everybody. */
  lemma {:induction false} WriteIsRead(w: World, a: nat, data: seq<byte>, c: nat)
    requires a in w.clients && c in w.clients && 0 in data && !Banged(data)
    ensures var w' := Direct(w, a, Command(CMD_WRITE, data), false).w;
            c in w'.clients && Answer(w', c, KeyOf(data)) == [Info(data)]
  {
    hide Direct, Answer, KeyOf, Refuse;
    WriteDirect(w, a, data, false);
    var w' := Direct(w, a, Command(CMD_WRITE, data), false).w;
    KeyBefore(data);
    BangedIs(data);
    AnswerIs(w', c, KeyOf(data));
  }

  /** A key that was written without a value is gone for everybody. */
  lemma {:induction false} DeleteIsRead(w: World, a: nat, key: seq<byte>, refused: bool, c: nat)
    requires a in w.clients && c in w.clients && 0 !in key
    ensures var w' := Direct(w, a, Command(CMD_WRITE, key), refused).w;
            c in w'.clients && Answer(w', c, key) == [Info(key)]
  {
    hide Direct, Answer, KeyOf, Refuse;
    WriteDirect(w, a, key, refused);
    AnswerIs(Direct(w, a, Command(CMD_WRITE, key), refused).w, c, key);
  }

  /** All other keys are read as before. */
  lemma {:induction false} OthersAreRead(w: World, a: nat, data: seq<byte>, refused: bool, c: nat, key: seq<byte>)
    requires a in w.clients && c in w.clients && 0 !in key && key != KeyOf(data)
    ensures var w' := Direct(w, a, Command(CMD_WRITE, data), refused).w;
            c in w'.clients && Answer(w', c, key) == Answer(w, c, key)
  {
    hide Direct, Answer, KeyOf;
    WriteDirect(w, a, data, refused);
    if 0 !in data { NoNulIsKey(data); }
    AnswerIs(w, c, key);
    AnswerIs(Direct(w, a, Command(CMD_WRITE, data), refused).w, c, key);
  }

  // ---- the store is the map of last writes ----------------------------------------------------------

  /** A WRITE about key that a connected client sent; keys that end in ! are not for the store. */
  ghost predicate WritesTo(w: World, e: Event, key: seq<byte>)
  {
    e.Input? && e.c in w.clients && e.cmd.msg == CMD_WRITE && KeyOf(e.cmd.data) == key && !Banged(e.cmd.data)
  }

  /** What the last WRITE about key left there: its data, or nothing if it had no value or the store refused
      to replace what was there before; or else what was there at first. */
  ghost function LastWrite(w: World, es: seq<Event>, key: seq<byte>): (r: Option<seq<byte>>)
  {
    if es == [] then Stored(w.store, key)
    else
      var n := |es| - 1;
      var before := LastWrite(w, es[..n], key);
      if !WritesTo(Run(w, es[..n]), es[n], key) then before
      else if 0 !in es[n].cmd.data then None
      else if es[n].refusals(0) && before != Some(es[n].cmd.data) then None
      else Some(es[n].cmd.data)
  }

  lemma {:induction false} DirectStores(w: World, c: nat, cmd: Command, refused: bool, key: seq<byte>)
    requires c in w.clients
    ensures Stored(Direct(w, c, cmd, refused).w.store, key) ==
              if cmd.msg != CMD_WRITE || KeyOf(cmd.data) != key || Banged(cmd.data) then Stored(w.store, key)
              else if 0 !in cmd.data || (refused && Stored(w.store, key) != Some(cmd.data)) then None
              else Some(cmd.data)
  {
    hide KeyOf, Subscribe, Unsubscribe, Read, NotifyAll, Banged;
    BangedIs(cmd.data);
    SubscribeStore(w.clients[c], w.store, cmd.data);
    if 0 !in cmd.data { NoNulIsKey(cmd.data); }
  }

  lemma {:induction false} SubscribeStore(cl: Client, m: Contents, data: seq<byte>)
    ensures Subscribe(cl, m, data).store == m && Unsubscribe(cl, m, data).store == m && Read(cl, m, data).store == m
  {
    hide Matching, Listing, Matcher.Parse, FindSub;
  }

  lemma {:induction false} StepStores(w: World, e: Event, key: seq<byte>)
    requires Flatness(w) && Plain(e)
    ensures Stored(Step(w, e).store, key) ==
              if !WritesTo(w, e, key) then Stored(w.store, key)
              else if 0 !in e.cmd.data || (e.refusals(0) && Stored(w.store, key) != Some(e.cmd.data)) then None
              else Some(e.cmd.data)
  {
    hide Direct, Flatness, KeyOf, Banged;
    if e.Input? && e.c in w.clients {
      FlatStep(w, e);
      DirectStores(w, e.c, e.cmd, e.refusals(0), key);
    }
  }

  lemma {:induction false} PlainStores(w: World, es: seq<Event>, key: seq<byte>)
    requires Ok(w) && Flatness(w) && forall k :: 0 <= k < |es| ==> Plain(es[k])
    ensures Stored(Run(w, es).store, key) == LastWrite(w, es, key)
    decreases |es|
  {
    hide Step, Ok, Flatness, Plain, WritesTo;
    if es != [] {
      hide Run;
      var n := |es| - 1;
      PlainStores(w, es[..n], key);
      RunPlain(w, es[..n]);
      assert es == es[..n] + [es[n]];
      RunSplit(w, es[..n], [es[n]]);
      RunOne(Run(w, es[..n]), es[n]);
      StepStores(Run(w, es[..n]), es[n], key);
    }
  }

  /** Over every run, with transactions or without: the store is the map of last writes. */
  lemma {:induction false} StoreIsLastWrites(w: World, es: seq<Event>, key: seq<byte>)
    requires Ok(w) && forall k :: 0 <= k < |es| ==> EventOk(es[k])
    ensures Stored(Run(w, es).store, key) == LastWrite(Erase(w), Flatten(w, es), key)
  {
    hide Ok, EventOk, Flatten, Run, Plain, Flatness, LastWrite;
    TransactionsFlatten(w, es);
    FlattenPlain(w, es);
    EraseOk(w);
    PlainStores(Erase(w), Flatten(w, es), key);
  }

  /** And that is what a client reads. */
  lemma {:induction false} ReadIsLastWrite(w: World, es: seq<Event>, c: nat, key: seq<byte>)
    requires Ok(w) && (forall k :: 0 <= k < |es| ==> EventOk(es[k])) && c in Run(w, es).clients && 0 !in key
    ensures var last := LastWrite(Erase(w), Flatten(w, es), key);
            Answer(Run(w, es), c, key) == [Info(if last.Some? then last.value else key)]
  {
    hide Ok, EventOk, Flatten, Run, LastWrite, Answer;
    StoreIsLastWrites(w, es, key);
    AnswerIs(Run(w, es), c, key);
  }

  // ---- who is told ----------------------------------------------------------------------------------

  /** The messages that client c got on the way from w to w'. */
  ghost function News(w: World, w': World, c: nat): (r: seq<Out>)
  {
    if c in w.clients && c in w'.clients && |w.clients[c].out| <= |w'.clients[c].out| then w'.clients[c].out[|w.clients[c].out|..]
    else []
  }

  /** The subscriptions whose pattern matches key. */
  ghost function Concerned(subs: seq<seq<byte>>, key: seq<byte>): (r: set<nat>)
  {
    set i: nat | i < |subs| && Matcher.Hits(subs[i], key)
  }

  lemma {:induction false} NotifiedCount(subs: seq<seq<byte>>, data: seq<byte>)
    ensures |Notified(subs, data)| == |Concerned(subs, KeyOf(data))|
    decreases |subs|
  {
    hide Matcher.Hits, KeyOf;
    var key := KeyOf(data);
    if subs == [] {
      assert Concerned(subs, key) == {};
    } else {
      var n := |subs| - 1;
      NotifiedCount(subs[..n], data);
      assert Concerned(subs, key) == Concerned(subs[..n], key) + if Matcher.Hits(subs[n], key) then {n} else {};
    }
  }

  lemma {:induction false} ToldNews(w: World, w': World, data: seq<byte>, c: nat)
    requires c in w.clients && w'.clients == NotifyAll(w.clients, data)
    ensures News(w, w', c) == Notified(w.clients[c].subs, data)
  {
    hide Notified;
  }

  /** A WRITE that changes the store, or whose key ends in !, brings every client one INFO for each of its
      subscriptions that match the key; any other WRITE brings nobody anything. */
  lemma {:induction false} WriteTells(w: World, a: nat, data: seq<byte>, c: nat)
    requires a in w.clients && c in w.clients
    ensures var w' := Direct(w, a, Command(CMD_WRITE, data), false).w;
            var news := News(w, w', c);
            if w'.store != w.store || Banged(data)
            then |news| == |Concerned(w.clients[c].subs, KeyOf(data))| && forall k :: 0 <= k < |news| ==> news[k] == Info(data)
            else news == []
  {
    hide Direct, KeyOf, Notified, Concerned, Refuse, Banged;
    BangedIs(data);
    WriteDirect(w, a, data, false);
    var w' := Direct(w, a, Command(CMD_WRITE, data), false).w;
    var e := Write(w.clients[a], w.store, data, false);
    if e.Notify? {
      hide News;
      ToldNews(w, w', data, c);
      NotifiedCount(w.clients[c].subs, data);
      forall k | 0 <= k < |News(w, w', c)| ensures News(w, w', c)[k] == Info(data) { NotifiedSame(w.clients[c].subs, data, k); }
      assert w'.store != w.store || Banged(data);
    } else {
      assert w' == w;
    }
  }

  /** A value whose key ends in ! is passed on and not stored. */
  lemma {:induction false} BangIsPassedOn(w: World, a: nat, data: seq<byte>, refused: bool, c: nat)
    requires a in w.clients && c in w.clients && Banged(data)
    ensures var o := Direct(w, a, Command(CMD_WRITE, data), refused);
            var news := News(w, o.w, c);
            o.ret == 1 && o.w.store == w.store &&
            |news| == |Concerned(w.clients[c].subs, KeyOf(data))| && forall k :: 0 <= k < |news| ==> news[k] == Info(data)
  {
    hide Direct, KeyOf, Notified, Concerned, Refuse, Banged;
    BangedIs(data);
    WriteDirect(w, a, data, refused);
    var w' := Direct(w, a, Command(CMD_WRITE, data), refused).w;
    hide News;
    ToldNews(w, w', data, c);
    NotifiedCount(w.clients[c].subs, data);
    forall k | 0 <= k < |News(w, w', c)| ensures News(w, w', c)[k] == Info(data) { NotifiedSame(w.clients[c].subs, data, k); }
  }

  /** A WRITE that the store refuses is told to its sender alone, as an error. */
  lemma {:induction false} RefusedTells(w: World, a: nat, data: seq<byte>, c: nat)
    requires a in w.clients && c in w.clients
    requires 0 in data && !Banged(data) && Stored(w.store, KeyOf(data)) != Some(data)
    ensures var o := Direct(w, a, Command(CMD_WRITE, data), true);
            o.ret <= 0 && News(w, o.w, c) == if c == a then [Failed(INTERNAL)] else []
  {
    hide Direct, KeyOf, Banged;
    BangedIs(data);
    WriteDirect(w, a, data, true);
  }

  // ---- what a SUB sends -----------------------------------------------------------------------------

  lemma {:induction false} MatchingHas(p: seq<byte>, es: seq<seq<byte>>, i: nat)
    requires i < |es| && Matcher.Hits(p, KeyOf(es[i]))
    ensures Info(es[i]) in Matching(p, es)
    decreases |es|
  {
    hide Matcher.Hits, KeyOf;
    var n := |es| - 1;
    if i < n { MatchingHas(p, es[..n], i); }
  }

  lemma {:induction false} MatchingAscends(p: seq<byte>, es: seq<seq<byte>>)
    requires Sorted(es)
    ensures forall i, j :: 0 <= i < j < |Matching(p, es)| ==> Less(Subject(Matching(p, es)[i]), Subject(Matching(p, es)[j]))
    decreases |es|
  {
    hide Matcher.Hits, KeyOf, Less;
    if es != [] {
      var n := |es| - 1;
      var m, m' := Matching(p, es[..n]), Matching(p, es);
      MatchingAscends(p, es[..n]);
      forall i, j | 0 <= i < j < |m'| ensures Less(Subject(m'[i]), Subject(m'[j])) {
        if j == |m| {
          var h := MatchingMembers(p, es[..n], i);
          assert m'[i] == Info(es[h]) && m'[j] == Info(es[n]);
        }
      }
    }
  }

  /** A SUB that is accepted sends the entries whose key its pattern matches, each of them once and in the
      order of their keys, and nothing else. */
  lemma {:induction false} SubscribeSends(w: World, c: nat, p: seq<byte>, refused: bool)
    requires Ok(w) && Accepts(w, c, p)
    ensures var w' := Direct(w, c, Command(CMD_SUB, p), refused).w;
            var news := News(w, w', c);
            (forall k :: 0 <= k < |news| ==>
               news[k].Info? && Matcher.Hits(p, Subject(news[k])) && Stored(w.store, Subject(news[k])) == Some(news[k].data)) &&
            (forall key :: key in w.store && Matcher.Hits(p, key) ==> Info(w.store[key]) in news) &&
            (forall i, j :: 0 <= i < j < |news| ==> Precedes(Subject(news[i]), Subject(news[j])))
  {
    hide Matching, Listing, Matcher.Parse, Matcher.Hits, KeyOf, Less, ToMap, Precedes, Sorted;
    var es := Listing(w.store);
    assert ClientOk(w.clients[c]);
    assert Lists(es, w.store);
    var news := News(w, Direct(w, c, Command(CMD_SUB, p), refused).w, c);
    SubscribeNews(w, c, p, refused);
    ToMapKeys(es);
    forall k | 0 <= k < |news|
      ensures news[k].Info? && Matcher.Hits(p, Subject(news[k])) && Stored(w.store, Subject(news[k])) == Some(news[k].data)
    {
      var i := MatchingMembers(p, es, k);
    }
    forall key | key in w.store && Matcher.Hits(p, key) ensures Info(w.store[key]) in news {
      var i :| 0 <= i < |es| && Keys(es)[i] == key;
      assert w.store[key] == es[i];
      MatchingHas(p, es, i);
    }
    MatchingAscends(p, es);
    forall i, j | 0 <= i < j < |news| ensures Precedes(Subject(news[i]), Subject(news[j])) {
      LessIs(Subject(news[i]), Subject(news[j]));
    }
  }

  lemma {:induction false} SubscribeNews(w: World, c: nat, p: seq<byte>, refused: bool)
    requires Accepts(w, c, p) && w.clients[c].nsubs <= MAX_SUBS
    ensures News(w, Direct(w, c, Command(CMD_SUB, p), refused).w, c) == Matching(p, Listing(w.store))
  {
    hide Matching, Listing, Matcher.Parse;
  }

  // ---- replies, errors and the end of a connection --------------------------------------------------

  /** Requests that concern nobody else are answered once. */
  lemma {:induction false} RequestsAnswered(w: World, c: nat, cmd: Command, refused: bool)
    requires c in w.clients
    ensures var o := Direct(w, c, cmd, refused);
            var news := News(w, o.w, c);
            (cmd.msg == CMD_HELLO ==> news == [Version]) &&
            (cmd.msg == CMD_PING ==> news == [Pong(cmd.data)]) &&
            (cmd.msg == CMD_COMMIT ==> news == [Failed(BAD_SEQ)]) &&
            (cmd.msg > CMD_PING && cmd.msg != MSG_EOF ==> news == [Failed(BAD_MSG)]) &&
            (cmd.msg in {CMD_HELLO, CMD_PING, CMD_COMMIT} || (cmd.msg > CMD_PING && cmd.msg != MSG_EOF) ==>
               o.w.store == w.store && forall d :: d != c ==> News(w, o.w, d) == [])
  {
    hide Subscribe, Unsubscribe, Read, Write;
  }

  /** An error that a connection does not survive: any on a binary connection, an internal one on every. */
  predicate Fatal(text: bool, o: Out)
  {
    o.Failed? && (!text || o.code == INTERNAL)
  }

  ghost predicate SomeFatal(text: bool, news: seq<Out>)
  {
    exists k :: 0 <= k < |news| && Fatal(text, news[k])
  }

  lemma {:induction false} MatchingNotFatal(text: bool, p: seq<byte>, es: seq<seq<byte>>)
    ensures !SomeFatal(text, Matching(p, es))
  {
    hide Matching;
    forall k | 0 <= k < |Matching(p, es)| ensures !Fatal(text, Matching(p, es)[k]) {
      var i := MatchingMembers(p, es, k);
    }
  }

  lemma {:induction false} ReplyEnds(cl: Client, m: Contents, cmd: Command, refused: bool)
    requires Act(cl, m, cmd, refused).Reply?
    ensures var e := Act(cl, m, cmd, refused);
            cl.out <= e.cl.out && (e.ret <= 0 <==> cmd.msg == MSG_EOF || SomeFatal(cl.text, e.cl.out[|cl.out|..]))
  {
    hide Matching, Listing, Matcher.Parse, KeyOf, FindSub, SomeFatal;
    MatchingNotFatal(cl.text, cmd.data, Listing(m));
    var e := Act(cl, m, cmd, refused);
    var news := e.cl.out[|cl.out|..];
    assert news == [] || |news| == 1 || news == Matching(cmd.data, Listing(m));
    if |news| == 1 { FatalOne(cl.text, news); } else if news == [] { FatalNone(cl.text); }
  }

  lemma {:induction false} FatalOne(text: bool, news: seq<Out>)
    requires |news| == 1
    ensures SomeFatal(text, news) <==> Fatal(text, news[0])
  {
  }

  lemma {:induction false} FatalNone(text: bool)
    ensures !SomeFatal(text, [])
  {
  }

  /** A command ends the connection of its sender exactly if it is the close itself, or the sender is sent an
      error that it does not survive. */
  lemma {:induction false} EndsExactly(w: World, c: nat, cmd: Command, refused: bool)
    requires c in w.clients
    ensures var o := Direct(w, c, cmd, refused);
            o.ret <= 0 <==> cmd.msg == MSG_EOF || SomeFatal(w.clients[c].text, News(w, o.w, c))
  {
    hide Act, Notified, SomeFatal;
    var e := Act(w.clients[c], w.store, cmd, refused);
    if e.Reply? {
      ReplyEnds(w.clients[c], w.store, cmd, refused);
    } else {
      NotifyTells(w, c, cmd, refused);
    }
  }

  /** And then the client is gone and everybody else is not; otherwise it stays. */
  lemma {:induction false} GoneExactly(w: World, c: nat, cmd: Command, refusals: nat -> bool)
    requires c in w.clients && (cmd.msg == MSG_EOF || w.clients[c].begins == 0)
    ensures var w' := Step(w, Input(c, cmd, refusals));
            (c !in w'.clients <==> cmd.msg == MSG_EOF || SomeFatal(w.clients[c].text, News(w, Direct(w, c, cmd, refusals(0)).w, c))) &&
            forall d :: d != c ==> (d in w'.clients <==> d in w.clients)
  {
    hide Direct, SomeFatal, News, Buffer;
    EndsExactly(w, c, cmd, refusals(0));
    DirectClients(w, c, cmd, refusals(0));
  }

  lemma {:induction false} DirectClients(w: World, c: nat, cmd: Command, refused: bool)
    requires c in w.clients
    ensures Direct(w, c, cmd, refused).w.clients.Keys == w.clients.Keys
  {
    hide Act, Notified;
  }

  lemma {:induction false} NotifyIs(cl: Client, m: Contents, cmd: Command, refused: bool)
    requires Act(cl, m, cmd, refused).Notify?
    ensures cmd.msg == CMD_WRITE && Act(cl, m, cmd, refused).data == cmd.data
  {
    hide Matching, Listing, Matcher.Parse, KeyOf, FindSub;
  }

  lemma {:induction false} NotifyTells(w: World, c: nat, cmd: Command, refused: bool)
    requires c in w.clients && Act(w.clients[c], w.store, cmd, refused).Notify?
    ensures cmd.msg != MSG_EOF && !SomeFatal(w.clients[c].text, News(w, Direct(w, c, cmd, refused).w, c))
  {
    hide Act, Notified, KeyOf, News;
    NotifyIs(w.clients[c], w.store, cmd, refused);
    var w' := Direct(w, c, cmd, refused).w;
    ToldNews(w, w', cmd.data, c);
    forall k | 0 <= k < |News(w, w', c)| ensures !Fatal(w.clients[c].text, News(w, w', c)[k]) {
      NotifiedSame(w.clients[c].subs, cmd.data, k);
    }
  }

  /** A READ is refused exactly for a key with a NUL. */
  lemma {:induction false} ReadRefuses(w: World, c: nat, data: seq<byte>)
    requires c in w.clients
    ensures var w' := Direct(w, c, Command(CMD_READ, data), false).w;
            w'.store == w.store && (News(w, w', c) == [Failed(BAD_ARG)] <==> 0 in data) &&
            w'.clients[c].subs == w.clients[c].subs && forall d :: d != c ==> News(w, w', d) == []
  {
    hide Subscribe, Unsubscribe, Write;
  }

  /** A SUB is refused exactly when the client has MAX_SUBS + 1 subscriptions, or for a pattern that is none. */
  lemma {:induction false} SubscribeRefuses(w: World, c: nat, p: seq<byte>)
    requires Ok(w) && c in w.clients
    ensures var w' := Direct(w, c, Command(CMD_SUB, p), false).w;
            w'.store == w.store && (forall d :: d != c ==> News(w, w', d) == []) &&
            if Accepts(w, c, p) then w'.clients[c].subs == [p] + w.clients[c].subs
            else w'.clients[c].subs == w.clients[c].subs &&
                 News(w, w', c) == [Failed(if |w.clients[c].subs| > MAX_SUBS then TOO_BIG else BAD_ARG)]
  {
    hide Matching, Listing, Matcher.Parse, StoreOk, Unsubscribe, Read, Write;
    assert ClientOk(w.clients[c]);
  }

  /** A new connection has no subscriptions, is in no transaction and has got no messages; it changes nothing
      else, and a number in use is not given away. */
  lemma {:induction false} ConnectIsFresh(w: World, c: nat, text: bool)
    ensures var w' := Step(w, Connect(c, text));
            w'.store == w.store && (forall d :: d in w.clients ==> d in w'.clients && w'.clients[d] == w.clients[d]) &&
            w'.clients.Keys == w.clients.Keys + {c} &&
            (c !in w.clients ==>
               var cl := w'.clients[c];
               cl.text == text && cl.subs == [] && cl.nsubs == 0 && cl.begins == 0 && cl.buf == [] && cl.out == [])
  {
  }

  /** What keeps a client: it talks text, and the store refuses nothing. */
  ghost predicate Lasting(w: World, c: nat)
  {
    c in w.clients && w.clients[c].text
  }

  lemma {:induction false} DirectLasts(w: World, a: nat, cmd: Command, c: nat)
    requires Lasting(w, c) && a in w.clients && (a == c ==> cmd.msg != MSG_EOF)
    ensures Lasting(Settle(Direct(w, a, cmd, false), a), c)
    ensures Lasting(Direct(w, a, cmd, false).w, c)
    ensures a == c ==> Direct(w, a, cmd, false).ret > 0
  {
    hide Act, Notified;
    ActKeepsBuf(w.clients[a], w.store, cmd, false);
    TextSurvives(w.clients[a], w.store, cmd);
  }

  lemma {:induction false} TextSurvives(cl: Client, m: Contents, cmd: Command)
    ensures var e := Act(cl, m, cmd, false); cl.text && cmd.msg != MSG_EOF && e.Reply? ==> e.ret > 0
  {
    hide Matching, Listing, Matcher.Parse, KeyOf, FindSub;
  }

  lemma {:induction false} PlaybackLasts(w: World, a: nat, k: nat, refusals: nat -> bool, c: nat)
    requires Lasting(w, c) && a in w.clients && forall i :: !refusals(i)
    requires forall i :: 0 <= i < |w.clients[a].buf| ==> Bufferable(w.clients[a].buf[i])
    ensures Lasting(Settle(Playback(w, a, k, refusals), a), c)
    decreases |w.clients[a].buf|
  {
    hide Direct;
    var buf := w.clients[a].buf;
    if buf != [] {
      assert Bufferable(buf[0]);
      DirectLasts(Pop(w, a), a, buf[0], c);
      var o := Direct(Pop(w, a), a, buf[0], refusals(k));
      if o.ret > 0 { PlaybackLasts(o.w, a, k + 1, refusals, c); }
    }
  }

  lemma {:induction false} StepLasts(w: World, e: Event, c: nat)
    requires Ok(w) && Lasting(w, c)
    requires e.Input? ==> (forall i :: !e.refusals(i)) && (e.c == c ==> e.cmd.msg != MSG_EOF)
    ensures Lasting(Step(w, e), c)
  {
    hide Direct, Playback, StoreOk, SubsOk;
    if e.Input? && e.c in w.clients {
      var cl := w.clients[e.c];
      assert ClientOk(cl);
      DirectLasts(w, e.c, e.cmd, c);
      if cl.begins > 0 { PlaybackLasts(Set(w, e.c, cl.(begins := cl.begins - 1)), e.c, 0, e.refusals, c); }
    }
  }

  /** While the store refuses nothing, a text client stays connected until it closes the connection itself,
      whatever it and others send. */
  lemma {:induction false} TextClientLasts(w: World, es: seq<Event>, c: nat)
    requires Ok(w) && Lasting(w, c) && forall k :: 0 <= k < |es| ==> EventOk(es[k])
    requires forall k :: 0 <= k < |es| && es[k].Input? ==>
               (forall i :: !es[k].refusals(i)) && (es[k].c == c ==> es[k].cmd.msg != MSG_EOF)
    ensures Lasting(Run(w, es), c)
    decreases |es|
  {
    hide Ok, Step, EventOk, Lasting;
    if es != [] {
      StepOk(w, es[0]);
      StepLasts(w, es[0], c);
      assert forall k :: 0 <= k < |es[1..]| ==> es[1..][k] == es[k + 1];
      TextClientLasts(Step(w, es[0]), es[1..], c);
    }
  }
}
