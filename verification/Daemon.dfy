/** daemon/infod.c as a program over the file store: the command switch, the notification loops, the
    command buffer and its playback, proved against the machine of module Infod. */
module Daemons {
  import opened Bytes
  import opened Entries
  import opened Infod
  import opened InfodRuns
  import opened Subscribers
  import Blocks
  import Effects
  import FileStore
  import Layout
  import Matcher
  import StoreRuns

  lemma {:induction false} FindSubIs(subs: seq<seq<byte>>, pattern: seq<byte>, k: nat)
    requires k <= |subs| && pattern !in subs[..k] && (k < |subs| ==> subs[k] == pattern)
    ensures k == FindSub(subs, pattern)
  {
    hide FindSub;
  }

  lemma {:induction false} NotifiedSnoc(subs: seq<seq<byte>>, data: seq<byte>, j: nat)
    requires j < |subs|
    ensures Notified(subs[..j + 1], data) ==
            Notified(subs[..j], data) + if Matcher.Hits(subs[j], KeyOf(data)) then [Info(data)] else []
  {
    assert subs[..j + 1][..j] == subs[..j];
  }

  lemma {:induction false} MatchingSnoc(p: seq<byte>, es: seq<seq<byte>>, j: nat)
    requires j < |es|
    ensures Matching(p, es[..j + 1]) ==
            Matching(p, es[..j]) + if Matcher.Hits(p, KeyOf(es[j])) then [Info(es[j])] else []
  {
    assert es[..j + 1][..j] == es[..j];
  }

  lemma {:induction false} NotifyAllIs(a: map<nat, Client>, data: seq<byte>, b: map<nat, Client>)
    requires a.Keys == b.Keys && forall c :: c in a ==> b[c] == Told(a[c], data)
    ensures b == NotifyAll(a, data)
  {
    hide Told;
  }

  ghost predicate AllSubsOk(clients: map<nat, Client>)
  {
    forall c :: c in clients ==> SubsOk(clients[c].subs, clients[c].nsubs)
  }

  function Sent(cl: Client, outs: seq<Out>): (r: Client)
  {
    cl.(out := cl.out + outs)
  }

  lemma {:induction false} TakenOut(s: seq<nat>, k: nat)
    requires k < |s| && forall i, j :: 0 <= i < j < |s| ==> s[i] != s[j]
    ensures var r := s[..k] + s[k + 1..];
            (forall x :: x in r <==> x in s && x != s[k]) && forall i, j :: 0 <= i < j < |r| ==> r[i] != r[j]
  {
    var r := s[..k] + s[k + 1..];
    assert forall i :: 0 <= i < |r| ==> r[i] == s[if i < k then i else i + 1];
    assert s == s[..k] + [s[k]] + s[k + 1..];
  }

  // ---- what commands can cost the file --------------------------------------------------------------

  predicate Obliges(luck: StoreRuns.Luck)
  {
    luck.growOk && luck.indexOk
  }

  /** By how many bytes a command can make the file grow. */
  function CmdCost(cmd: Command, page: nat): (r: nat)
  {
    if cmd.msg == CMD_WRITE then Layout.InfoSize(|cmd.data|) + page else 0
  }

  function BufCost(buf: seq<Command>, page: nat): (r: nat)
  {
    if buf == [] then 0 else CmdCost(buf[0], page) + BufCost(buf[1..], page)
  }

  lemma {:induction false} BufCostSnoc(buf: seq<Command>, cmd: Command, page: nat)
    ensures BufCost(buf + [cmd], page) == BufCost(buf, page) + CmdCost(cmd, page)
  {
    hide CmdCost;
    if buf == [] {
      assert [] + [cmd] == [cmd] && [cmd][1..] == [];
    } else {
      assert (buf + [cmd])[1..] == buf[1..] + [cmd];
      BufCostSnoc(buf[1..], cmd, page);
    }
  }

  function BufOf(clients: map<nat, Client>, c: nat): (r: seq<Command>)
  {
    if c in clients then clients[c].buf else []
  }

  /** What the buffered commands of the listed clients can cost. */
  function Debt(order: seq<nat>, clients: map<nat, Client>, page: nat): (r: nat)
  {
    if order == [] then 0 else BufCost(BufOf(clients, order[0]), page) + Debt(order[1..], clients, page)
  }

  lemma {:induction false} DebtSame(order: seq<nat>, a: map<nat, Client>, b: map<nat, Client>, page: nat)
    requires forall d :: d in order ==> BufOf(b, d) == BufOf(a, d)
    ensures Debt(order, b, page) == Debt(order, a, page)
  {
    hide BufCost, BufOf;
    if order != [] {
      assert order[0] in order && forall d :: d in order[1..] ==> d in order;
      DebtSame(order[1..], a, b, page);
    }
  }

  /** Only the buffer of client c has changed. */
  lemma {:induction false} DebtChange(order: seq<nat>, a: map<nat, Client>, b: map<nat, Client>, c: nat, page: nat)
    requires c in order && forall i, j :: 0 <= i < j < |order| ==> order[i] != order[j]
    requires forall d :: d in order && d != c ==> BufOf(b, d) == BufOf(a, d)
    ensures Debt(order, b, page) + BufCost(BufOf(a, c), page) == Debt(order, a, page) + BufCost(BufOf(b, c), page)
    decreases |order|
  {
    hide BufCost, BufOf;
    if order[0] == c {
      forall d | d in order[1..] ensures BufOf(b, d) == BufOf(a, d) {
        var k :| 0 <= k < |order[1..]| && order[1..][k] == d;
        assert order[k + 1] == d && order[0] != order[k + 1];
      }
      DebtSame(order[1..], a, b, page);
    } else {
      assert order[0] in order && forall d :: d in order[1..] ==> d in order;
      DebtChange(order[1..], a, b, c, page);
    }
  }

  lemma {:induction false} DebtHas(order: seq<nat>, clients: map<nat, Client>, c: nat, page: nat)
    requires c in order
    ensures BufCost(BufOf(clients, c), page) <= Debt(order, clients, page)
  {
    hide BufCost, BufOf;
    if order[0] != c { DebtHas(order[1..], clients, c, page); }
  }

  lemma {:induction false} DebtSplit(a: seq<nat>, b: seq<nat>, clients: map<nat, Client>, page: nat)
    ensures Debt(a + b, clients, page) == Debt(a, clients, page) + Debt(b, clients, page)
  {
    hide BufCost, BufOf;
    if a == [] {
      assert a + b == b;
    } else {
      assert (a + b)[1..] == a[1..] + b;
      DebtSplit(a[1..], b, clients, page);
    }
  }

  /** A client goes, and its buffer with it. */
  lemma {:induction false} DebtDrop(order: seq<nat>, k: nat, clients: map<nat, Client>, page: nat)
    requires k < |order| && forall i, j :: 0 <= i < j < |order| ==> order[i] != order[j]
    ensures Debt(order[..k] + order[k + 1..], clients - {order[k]}, page) <= Debt(order, clients, page)
  {
    hide BufCost, Debt;
    var r, b := order[..k] + order[k + 1..], clients - {order[k]};
    TakenOut(order, k);
    DebtSame(r, clients, b, page);
    assert order == order[..k] + ([order[k]] + order[k + 1..]);
    DebtSplit(order[..k], [order[k]] + order[k + 1..], clients, page);
    DebtSplit([order[k]], order[k + 1..], clients, page);
    DebtSplit(order[..k], order[k + 1..], clients, page);
  }

  lemma {:induction false} DebtNew(order: seq<nat>, clients: map<nat, Client>, c: nat, cl: Client, page: nat)
    requires c !in order && cl.buf == []
    ensures Debt([c] + order, clients[c := cl], page) == Debt(order, clients, page)
  {
    DebtSame(order, clients, clients[c := cl], page);
    assert ([c] + order)[1..] == order;
  }

  class Daemon {
    const store: FileStore.Store
    /** The records of all connected clients, and the order of the all_clients list. */
    var clients: map<nat, Client>
    var order: seq<nat>

    ghost function State(): (r: World)
      reads this, store, store.file
    {
      World(store.Map(), clients)
    }

    ghost predicate Listed()
      reads this
    {
      (forall c :: c in clients <==> c in order) &&
      forall i, j :: 0 <= i < j < |order| ==> order[i] != order[j]
    }

    /** Between events. */
    ghost predicate Valid()
      reads this, store, store.file, store.cells
    {
      store.Valid() && Listed() && Ok(State())
    }

    /** The file and the commands in buf together stay within need bytes, and no command is refused for
        which the system obliges, as long as need is a few pages below 2^32. */
    ghost predicate Spends(need: nat, buf: seq<Command>, env: nat -> StoreRuns.Luck, refusals: nat -> bool)
      reads store
    {
      need + 4 * store.pagesize < Layout.U32 ==>
        store.file.Length + BufCost(buf, store.pagesize) <= need && forall k :: Obliges(env(k)) ==> !refusals(k)
    }

    /** While a command of client c is carried out. */
    ghost predicate Serving(c: nat)
      reads this, store, store.file, store.cells
    {
      c in clients && store.Valid() && Listed() && OkBut(State(), c)
    }

    constructor (store: FileStore.Store)
      requires store.Valid()
      ensures Valid() && this.store == store && clients == map[]
    {
      this.store := store;
      clients, order := map[], [];
      new;
      assert Lists(store.Entries(), store.Map());
    }

    // ---- output ---------------------------------------------------------------------------------------

    /** proto_output() to client c. */
    method Output(c: nat, o: Out)
      requires c in clients
      modifies this`clients
      ensures clients == old(clients)[c := Say(old(clients[c]), o)]
    {
      clients := clients[c := Say(clients[c], o)];
    }

    /** proto_output_error() */
    method OutputError(c: nat, code: nat) returns (ret: int)
      requires c in clients
      modifies this`clients
      ensures ret == (if old(clients[c]).text && code != INTERNAL then 1 else -1)
      ensures clients == old(clients)[c := Say(old(clients[c]), Failed(code))]
    {
      Output(c, Failed(code));
      ret := if clients[c].text && code != INTERNAL then 1 else -1;
    }

    /** The inner notification loop: the subscriptions of one client. */
    method NotifyClient(c: nat, data: seq<byte>)
      requires c in clients && SubsOk(clients[c].subs, clients[c].nsubs)
      modifies this`clients
      ensures clients == old(clients)[c := Told(old(clients[c]), data)]
    {
      hide Notified, Matcher.Parse, Matcher.Matches, KeyOf;
      var cl := clients[c];
      assert Notified(cl.subs[..0], data) == [] by { NotifiedNone(data); }
      assert cl.out + [] == cl.out;
      for j := 0 to |cl.subs|
        invariant clients == old(clients)[c := cl.(out := cl.out + Notified(cl.subs[..j], data))]
      {
        NotifiedSnoc(cl.subs, data, j);
        var hit := Matcher.Match(cl.subs[j], KeyOf(data));
        if hit != 0 {
          Output(c, Info(data));
          assert cl.out + (Notified(cl.subs[..j], data) + [Info(data)]) == (cl.out + Notified(cl.subs[..j], data)) + [Info(data)];
        } else {
          assert Notified(cl.subs[..j], data) + [] == Notified(cl.subs[..j], data);
        }
      }
      assert cl.subs[..|cl.subs|] == cl.subs;
    }

    static lemma {:induction false} NotifiedNone(data: seq<byte>)
      ensures Notified([], data) == []
    {
    }

    /** The outer notification loop. */
    method NotifyClients(data: seq<byte>)
      requires Listed() && AllSubsOk(clients)
      modifies this`clients
      ensures clients == NotifyAll(old(clients), data)
    {
      hide Notified, SubsOk, Told;
      ghost var was := clients;
      for i := 0 to |order|
        invariant order == old(order) && clients.Keys == was.Keys && AllSubsOk(was)
        invariant forall k :: 0 <= k < i ==> clients[order[k]] == Told(was[order[k]], data)
        invariant forall k :: i <= k < |order| ==> clients[order[k]] == was[order[k]]
      {
        NotifyClient(order[i], data);
      }
      forall c | c in clients ensures clients[c] == Told(was[c], data) {
        var k :| 0 <= k < |order| && order[k] == c;
      }
      NotifyAllIs(was, data, clients);
    }

    // ---- commands -------------------------------------------------------------------------------------

    /** client_find_subscription(): where the client's first such subscription is, or the end. */
    method FindSubscription(c: nat, pattern: seq<byte>) returns (k: nat)
      requires c in clients
      ensures k == FindSub(clients[c].subs, pattern)
    {
      hide FindSub;
      var subs := clients[c].subs;
      k := 0;
      while k < |subs| && subs[k] != pattern
        invariant k <= |subs| && pattern !in subs[..k]
      {
        assert subs[..k + 1] == subs[..k] + [subs[k]];
        k := k + 1;
      }
      FindSubIs(subs, pattern, k);
    }

    /** An INFO to client c if the pattern matches the entry. */
    method SendIfMatch(c: nat, pattern: seq<byte>, kv: seq<byte>)
      requires c in clients && 0 !in pattern && Matcher.Parse(pattern).Some?
      modifies this`clients
      ensures clients == old(clients)[c := Sent(old(clients[c]), if Matcher.Hits(pattern, KeyOf(kv)) then [Info(kv)] else [])]
    {
      hide Matcher.Parse, Matcher.Matches, KeyOf;
      var hit := Matcher.Match(pattern, KeyOf(kv));
      if hit != 0 {
        Output(c, Info(kv));
      } else {
        assert clients[c].out + [] == clients[c].out;
      }
    }

    /** The loop of CMD_SUB over the store. */
    method SendMatching(c: nat, pattern: seq<byte>)
      requires store.Valid() && c in clients && 0 !in pattern && Matcher.Parse(pattern).Some?
      modifies this`clients
      ensures clients == old(clients)[c := Sent(old(clients[c]), Matching(pattern, Listing(store.Map())))]
    {
      hide Matching, Matcher.Parse, Matcher.Matches, KeyOf, Sorted, ToMap, Matcher.Hits, Sent, Listing, Layout.Kvs, Blocks.Laid;
      ghost var es, cl := store.Entries(), clients[c];
      EntriesListed();
      SentNone(cl, pattern, es);
      var ix: nat := 0;
      var info;
      info, ix := store.Next(0);
      ghost var n: nat := 0;
      while info.Some?
        invariant n <= |es| && (info.Some? ==> n < |es| && ix == n + 1 && info.value == es[n])
        invariant info.None? ==> n == |es|
        invariant clients == old(clients)[c := Sent(cl, Matching(pattern, es[..n]))]
        decreases |es| - n
      {
        SentMore(cl, pattern, es, n);
        SendIfMatch(c, pattern, info.value);
        n := n + 1;
        info, ix := store.Next(ix);
      }
      assert es[..|es|] == es;
    }

    static lemma {:induction false} SentNone(cl: Client, p: seq<byte>, es: seq<seq<byte>>)
      ensures Sent(cl, Matching(p, es[..0])) == cl
    {
      assert cl.out + [] == cl.out;
    }

    static lemma {:induction false} SentMore(cl: Client, p: seq<byte>, es: seq<seq<byte>>, n: nat)
      requires n < |es|
      ensures Sent(cl, Matching(p, es[..n + 1])) ==
              Sent(Sent(cl, Matching(p, es[..n])), if Matcher.Hits(p, KeyOf(es[n])) then [Info(es[n])] else [])
    {
      hide Matching, Matcher.Hits, KeyOf;
      MatchingSnoc(p, es, n);
      var a, b := Matching(p, es[..n]), if Matcher.Hits(p, KeyOf(es[n])) then [Info(es[n])] else [];
      assert cl.out + (a + b) == (cl.out + a) + b;
    }

    lemma {:induction false} EntriesListed()
      requires store.Valid()
      ensures Listing(store.Map()) == store.Entries() && StoreOk(store.Map())
    {
      hide ToMap, Sorted;
      var es := store.Entries();
      assert Lists(es, store.Map());
      ListingUnique(Listing(store.Map()), es);
    }

    /** CMD_SUB */
    method Sub(c: nat, data: seq<byte>) returns (ret: int)
      requires store.Valid() && c in clients
      modifies this`clients
      ensures Outcome(State(), ret) == Apply(old(State()), c, Subscribe(old(clients[c]), store.Map(), data))
    {
      hide Matching, Matcher.Parse, Listing, ToMap;
      if clients[c].nsubs > MAX_SUBS {
        ret := OutputError(c, TOO_BIG);
        return;
      }
      var valid := 0 !in data;
      if valid { valid := Matcher.IsValid(data); }
      if !valid {
        ret := OutputError(c, BAD_ARG);
        return;
      }
      clients := clients[c := clients[c].(subs := [data] + clients[c].subs, nsubs := clients[c].nsubs + 1)];
      SendMatching(c, data);
      ret := 1;
    }

    /** CMD_UNSUB */
    method Unsub(c: nat, data: seq<byte>) returns (ret: int)
      requires c in clients
      modifies this`clients
      ensures Outcome(State(), ret) == Apply(old(State()), c, Unsubscribe(old(clients[c]), store.Map(), data))
    {
      hide FindSub, ToMap, Layout.Kvs, Unsubscribe;
      var k := FindSubscription(c, data);
      var cl := clients[c];
      UnsubEffect(cl, store.Map(), data);
      if k < |cl.subs| {
        clients := clients[c := cl.(subs := cl.subs[..k] + cl.subs[k + 1..], nsubs := cl.nsubs - 1)];
      }
      ret := 1;
    }

    static lemma {:induction false} UnsubEffect(cl: Client, m: Contents, data: seq<byte>)
      ensures var k := FindSub(cl.subs, data);
              Unsubscribe(cl, m, data) ==
              Reply(if k < |cl.subs| then cl.(subs := cl.subs[..k] + cl.subs[k + 1..], nsubs := cl.nsubs - 1) else cl, m, 1)
    {
      hide FindSub;
    }

    /** CMD_READ */
    method ReadKey(c: nat, data: seq<byte>) returns (ret: int)
      requires store.Valid() && c in clients
      modifies this`clients
      ensures Outcome(State(), ret) == Apply(old(State()), c, Read(old(clients[c]), store.Map(), data))
    {
      hide ToMap;
      if 0 in data {
        ret := OutputError(c, BAD_ARG);
        return;
      }
      var info := store.Get(data);
      match info {
        case Some(kv) => Output(c, Info(kv));
        case None => Output(c, Info(data));
      }
      ret := 1;
    }

    /** The part of CMD_WRITE that changes the store: 0 for no effect, -1 for a failed put. */
    method Update(data: seq<byte>, luck: StoreRuns.Luck, ghost cl: Client) returns (r: int)
      requires store.Valid() && |data| < 0x10000
      modifies store, store.file, store.cells
      ensures (store.file == old(store.file) || fresh(store.file)) && (store.cells == old(store.cells) || fresh(store.cells))
      ensures store.Valid() && r in {-1, 0, 1}
      ensures Write(cl, old(store.Map()), data, r == -1) ==
              if r == 0 then Reply(cl, store.Map(), 1)
              else if r == -1 then Refuse(cl, store.Map(), INTERNAL)
              else Notify(store.Map(), data)
      ensures store.Grows(old(store.file.Length), CmdCost(Command(CMD_WRITE, data), store.pagesize))
      ensures old(store.file.Length) + CmdCost(Command(CMD_WRITE, data), store.pagesize) < Layout.U32 && Obliges(luck) ==> r != -1
    {
      hide ToMap, KeyOf, Sorted, Layout.Kvs, Blocks.Laid, Layout.InfoSize;
      if 0 !in data {
        r := store.Del(Some(data), luck.trimOk);
        assert r == 0 ==> old(store.Map()) - {data} == old(store.Map());
      } else if Ephemeral(data) {
        r := 1;
      } else {
        r := store.Put(data, luck.growOk, luck.indexOk, luck.trimOk);
      }
    }

    /** CMD_WRITE; refused says that the store could not put. */
    method WriteData(c: nat, data: seq<byte>, luck: StoreRuns.Luck) returns (ret: int, ghost refused: bool)
      requires Serving(c) && |data| < 0x10000
      modifies this`clients, store, store.file, store.cells
      ensures (store.file == old(store.file) || fresh(store.file)) && (store.cells == old(store.cells) || fresh(store.cells))
      ensures store.Valid()
      ensures Outcome(State(), ret) == Apply(old(State()), c, Write(old(clients[c]), old(store.Map()), data, refused))
      ensures store.Grows(old(store.file.Length), CmdCost(Command(CMD_WRITE, data), store.pagesize))
      ensures old(store.file.Length) + CmdCost(Command(CMD_WRITE, data), store.pagesize) < Layout.U32 && Obliges(luck) ==> !refused
    {
      hide ToMap, SubsOk, StoreOk, Notified, NotifyAll, Bufferable, Write, Sorted, Layout.Kvs, Blocks.Laid, CmdCost;
      var r := Update(data, luck, clients[c]);
      refused := r == -1;
      if r == 0 {
        ret := 1;
      } else if r == -1 {
        ret := OutputError(c, INTERNAL);
      } else {
        NotifyClients(data);
        ret := 1;
      }
    }

    /** The command switch of on_app_input(). */
    method Dispatch(c: nat, cmd: Command, luck: StoreRuns.Luck) returns (ret: int, ghost refused: bool)
      requires Serving(c) && CmdOk(cmd)
      modifies this`clients, store, store.file, store.cells
      ensures (store.file == old(store.file) || fresh(store.file)) && (store.cells == old(store.cells) || fresh(store.cells))
      ensures store.Valid() && Listed()
      ensures Outcome(State(), ret) == Direct(old(State()), c, cmd, refused)
      ensures store.Grows(old(store.file.Length), CmdCost(cmd, store.pagesize))
      ensures old(store.file.Length) + CmdCost(cmd, store.pagesize) < Layout.U32 && Obliges(luck) ==> !refused
    {
      hide FileStore.Store.Valid, FileStore.Store.Map, Subscribe, Unsubscribe, Read, Write, SubsOk, StoreOk, Bufferable;
      refused := false;
      if cmd.msg == MSG_EOF {
        ret := 0;
      } else if cmd.msg == CMD_HELLO {
        Output(c, Version);
        ret := 1;
      } else if cmd.msg == CMD_SUB {
        ret := Sub(c, cmd.data);
      } else if cmd.msg == CMD_UNSUB {
        ret := Unsub(c, cmd.data);
      } else if cmd.msg == CMD_READ {
        ret := ReadKey(c, cmd.data);
      } else if cmd.msg == CMD_WRITE {
        ret, refused := WriteData(c, cmd.data, luck);
      } else if cmd.msg == CMD_PING {
        Output(c, Pong(cmd.data));
        ret := 1;
      } else if cmd.msg == CMD_BEGIN {
        clients := clients[c := clients[c].(begins := 1)];
        ret := 1;
      } else if cmd.msg == CMD_COMMIT {
        ret := OutputError(c, BAD_SEQ);
      } else {
        ret := OutputError(c, BAD_MSG);
      }
    }

    // ---- transactions ---------------------------------------------------------------------------------

    /** Take the first command out of the buffer and carry it out. */
    method PlayOne(c: nat, luck: StoreRuns.Luck) returns (ret: int, ghost refused: bool)
      requires Serving(c) && clients[c].begins == 0 && clients[c].buf != []
      modifies this`clients, store, store.file, store.cells
      ensures (store.file == old(store.file) || fresh(store.file)) && (store.cells == old(store.cells) || fresh(store.cells))
      ensures Serving(c) && clients[c].begins == 0 && clients[c].buf == old(clients[c].buf[1..])
      ensures store.Grows(old(store.file.Length), CmdCost(old(clients[c].buf[0]), store.pagesize))
      ensures old(store.file.Length) + CmdCost(old(clients[c].buf[0]), store.pagesize) < Layout.U32 && Obliges(luck) ==> !refused
      ensures Outcome(State(), ret) == Direct(Pop(old(State()), c), c, old(clients[c].buf[0]), refused)
    {
      hide Direct, OkBut, ToMap, Bufferable, Sorted, Layout.Kvs, Blocks.Laid, CmdCost;
      ghost var w := State();
      var cmd := clients[c].buf[0];
      clients := clients[c := clients[c].(buf := clients[c].buf[1..])];
      assert State() == Pop(w, c);
      PopServing(w, c);
      ret, refused := Dispatch(c, cmd, luck);
      DirectOkBut(Pop(w, c), c, cmd, refused);
    }

    /** Play back all the buffered commands in order; env(k) is the luck of the k-th. */
    method PlayBuffer(c: nat, env: nat -> StoreRuns.Luck) returns (ret: int, ghost refusals: nat -> bool)
      requires Serving(c) && clients[c].begins == 0
      modifies this`clients, store, store.file, store.cells
      ensures (store.file == old(store.file) || fresh(store.file)) && (store.cells == old(store.cells) || fresh(store.cells))
      ensures store.Valid() && Listed()
      ensures Outcome(State(), ret) == Playback(old(State()), c, 0, refusals)
      ensures c in clients && Spends(old(store.file.Length) + BufCost(old(clients[c].buf), store.pagesize), clients[c].buf, env, refusals)
    {
      hide Direct, Playback, ToMap, OkBut, Bufferable, Reaches, Sorted, Layout.Kvs, Blocks.Laid, CmdCost;
      ghost var w0, done: seq<bool> := State(), [];
      ghost var need := store.file.Length + BufCost(clients[c].buf, store.pagesize);
      ReachStart(w0, c);
      var k: nat := 0;
      while clients[c].buf != []
        invariant Serving(c) && clients[c].begins == 0 && k == |done|
        invariant Reaches(w0, c, State(), done)
        invariant (store.file == old(store.file) || fresh(store.file)) && (store.cells == old(store.cells) || fresh(store.cells))
        invariant Spends(need, clients[c].buf, env, Refusals(done))
        decreases |clients[c].buf|
      {
        ghost var w, refused := State(), false;
        ret, refused := PlayOne(c, env(k));
        ReachStep(w0, c, w, done, refused);
        done := done + [refused];
        assert Spends(need, clients[c].buf, env, Refusals(done));
        if ret <= 0 {
          return ret, Refusals(done);
        }
        k := k + 1;
      }
      ReachEnd(w0, c, State(), done);
      ret, refusals := 1, Refusals(done);
    }

    /** buffer_command() */
    method BufferCommand(c: nat, cmd: Command, env: nat -> StoreRuns.Luck) returns (ret: int, ghost refusals: nat -> bool)
      requires Valid() && c in clients && clients[c].begins > 0 && CmdOk(cmd) && cmd.msg != MSG_EOF
      modifies this`clients, store, store.file, store.cells
      ensures (store.file == old(store.file) || fresh(store.file)) && (store.cells == old(store.cells) || fresh(store.cells))
      ensures store.Valid() && Listed()
      ensures Outcome(State(), ret) == Buffer(old(State()), c, cmd, refusals)
      ensures c in clients && Spends(old(store.file.Length) + BufCost(old(clients[c].buf), store.pagesize) + CmdCost(cmd, store.pagesize), clients[c].buf, env, refusals)
    {
      hide Playback, ToMap, SubsOk, StoreOk, Bufferable, Sorted, Layout.Kvs, Blocks.Laid, BufCost;
      refusals := Refusals([]);
      var cl := clients[c];
      if cmd.msg == CMD_BEGIN {
        clients := clients[c := cl.(begins := cl.begins + 1)];
        ret := 1;
      } else if cmd.msg == CMD_COMMIT {
        clients := clients[c := cl.(begins := cl.begins - 1)];
        if clients[c].begins > 0 {
          ret := 1;
        } else {
          ret, refusals := PlayBuffer(c, env);
        }
      } else {
        BufCostSnoc(cl.buf, cmd, store.pagesize);
        clients := clients[c := cl.(buf := cl.buf + [cmd])];
        ret := 1;
      }
    }

    /** on_app_input() */
    method OnAppInput(c: nat, cmd: Command, env: nat -> StoreRuns.Luck) returns (ret: int, ghost refusals: nat -> bool)
      requires Valid() && c in clients && CmdOk(cmd)
      modifies this`clients, store, store.file, store.cells
      ensures (store.file == old(store.file) || fresh(store.file)) && (store.cells == old(store.cells) || fresh(store.cells))
      ensures store.Valid() && Listed()
      ensures Outcome(State(), ret) == Exec(old(State()), c, cmd, refusals)
      ensures c in clients && Spends(old(store.file.Length) + BufCost(old(clients[c].buf), store.pagesize) + CmdCost(cmd, store.pagesize), clients[c].buf, env, refusals)
    {
      hide Direct, Buffer, ToMap, SubsOk, StoreOk, Bufferable, Sorted, Layout.Kvs, Blocks.Laid;
      if cmd.msg != MSG_EOF && clients[c].begins > 0 {
        ret, refusals := BufferCommand(c, cmd, env);
      } else {
        ghost var refused;
        ret, refused := Dispatch(c, cmd, env(0));
        refusals := k => k == 0 && refused;
      }
    }

    // ---- events ---------------------------------------------------------------------------------------

    /** The file and all buffered commands together. */
    ghost function Claim(): (r: nat)
      reads this, store
    {
      store.file.Length + Debt(order, clients, store.pagesize)
    }

    /** on_net_accept(): a new client record at the head of the list. */
    method Accept(c: nat, text: bool)
      requires Valid() && c !in clients
      modifies this`clients, this`order
      ensures Valid() && State() == Step(old(State()), Connect(c, text)) && Claim() == old(Claim())
    {
      hide ToMap, StoreOk, Sorted, Layout.Kvs, Blocks.Laid, Matcher.Parse, Bufferable, Debt;
      DebtNew(order, clients, c, Client(text, [], 0, 0, [], []), store.pagesize);
      clients := clients[c := Client(text, [], 0, 0, [], [])];
      order := [c] + order;
      assert forall k :: 0 < k < |order| ==> order[k] == old(order)[k - 1];
      assert forall d :: d in order <==> d == c || d in old(order);
    }

    /** on_net_close() */
    method Drop(c: nat)
      requires Listed() && c in clients
      modifies this`clients, this`order
      ensures Listed() && clients == old(clients) - {c} && Claim() <= old(Claim())
    {
      hide Debt;
      var k := 0;
      while order[k] != c
        invariant 0 <= k < |order| && c in order[k..]
        decreases |order| - k
      {
        assert order[k..] == [order[k]] + order[k + 1..];
        k := k + 1;
      }
      TakenOut(order, k);
      DebtDrop(order, k, clients, store.pagesize);
      clients := clients - {c};
      order := order[..k] + order[k + 1..];
    }

    /** A command that a client sent: carry it out, and close the connection if the handler says so. While
        the file and all buffered commands are a few pages below 2^32 bytes together, nothing is refused
        for which the system obliges. */
    method Serve(c: nat, cmd: Command, env: nat -> StoreRuns.Luck) returns (ghost refusals: nat -> bool)
      requires Valid() && c in clients && CmdOk(cmd)
      modifies this`clients, this`order, store, store.file, store.cells
      ensures (store.file == old(store.file) || fresh(store.file)) && (store.cells == old(store.cells) || fresh(store.cells))
      ensures Valid() && State() == Step(old(State()), Input(c, cmd, refusals))
      ensures var need := old(Claim()) + CmdCost(cmd, store.pagesize);
              need + 4 * store.pagesize < Layout.U32 ==> Claim() <= need && forall k :: Obliges(env(k)) ==> !refusals(k)
    {
      hide Exec, ToMap, Ok, Sorted, Layout.Kvs, Blocks.Laid, Debt, BufCost, CmdCost;
      ghost var w, page := State(), store.pagesize;
      DebtHas(order, clients, c, page);
      var ret;
      ret, refusals := OnAppInput(c, cmd, env);
      StepOk(w, Input(c, cmd, refusals));
      ExecOthers(w, c, cmd, refusals);
      DebtChange(order, w.clients, clients, c, page);
      if ret <= 0 {
        Drop(c);
      }
    }

    /** Any list of events: the daemon does what the machine does. A connection under a number in use
        and input of a client that is gone do not happen, and are passed over. */
    method Loop(requests: seq<Request>) returns (ghost es: seq<Event>)
      requires Valid() && forall k :: 0 <= k < |requests| ==> requests[k].Ask? ==> CmdOk(requests[k].cmd)
      modifies this`clients, this`order, store, store.file, store.cells
      ensures (store.file == old(store.file) || fresh(store.file)) && (store.cells == old(store.cells) || fresh(store.cells))
      ensures |es| == |requests| && forall k :: 0 <= k < |es| ==> Answers(es[k], requests[k])
      ensures Valid() && State() == Run(old(State()), es)
      ensures old(Claim()) + TotalCost(requests, store.pagesize) + 4 * store.pagesize < Layout.U32 ==>
                forall k :: 0 <= k < |es| ==> Spared(es[k], requests[k])
    {
      hide Step, ToMap, Ok, Sorted, Layout.Kvs, Blocks.Laid, Run, CmdOk, TotalCost, CmdCost, Claim;
      ghost var w0, page, claim := State(), store.pagesize, Claim();
      es := [];
      RunNone(w0);
      TotalNothing(page);
      for i := 0 to |requests|
        invariant Valid() && State() == Run(w0, es)
        invariant |es| == i && forall k :: 0 <= k < i ==> Answers(es[k], requests[k])
        invariant (store.file == old(store.file) || fresh(store.file)) && (store.cells == old(store.cells) || fresh(store.cells))
        invariant claim + TotalCost(requests[..i], page) + 4 * page < Layout.U32 ==>
                    Claim() <= claim + TotalCost(requests[..i], page) && forall k :: 0 <= k < i ==> Spared(es[k], requests[k])
      {
        TotalNext(requests, i, page);
        ghost var w, e := State(), Connect(0, false);
        match requests[i] {
          case Join(c, text) =>
            e := Connect(c, text);
            if c in clients { StepPassed(w, e); } else { Accept(c, text); }
          case Ask(c, cmd, env) =>
            if c in clients {
              ghost var refusals := Serve(c, cmd, env);
              e := Input(c, cmd, refusals);
            } else {
              e := Input(c, cmd, _ => false);
              StepPassed(w, e);
            }
        }
        assert claim + TotalCost(requests[..i + 1], page) + 4 * page < Layout.U32 ==> Spared(e, requests[i]);
        RunSplit(w0, es, [e]);
        RunOne(w, e);
        es := es + [e];
      }
      assert requests[..|requests|] == requests;
    }

    /** The daemon on its file store, with a system that obliges and room in the file: whatever clients send,
        in transactions or not, every subscription that lasts tells its client the store, and the store holds
        what was written last. */
    method Session(requests: seq<Request>) returns (ghost es: seq<Event>)
      requires Valid() && forall k :: 0 <= k < |requests| ==> Obliged(requests[k])
      requires Claim() + TotalCost(requests, store.pagesize) + 4 * store.pagesize < Layout.U32
      modifies this`clients, this`order, store, store.file, store.cells
      ensures |es| == |requests| && forall k :: 0 <= k < |es| ==> Answers(es[k], requests[k])
      ensures Valid() && State() == Run(old(State()), es)
      ensures forall i, c, p :: Subscribed(old(State()), es, i, c, p) ==>
                Coherent(State(), c, p, SentBefore(old(State()), es, i, c, p)) && c in clients && p in clients[c].subs
      ensures forall key :: Effects.Stored(store.Map(), key) == Effects.LastWrite(Erase(old(State())), Flatten(old(State()), es), key)
    {
      hide Ok, ToMap, Sorted, Layout.Kvs, Blocks.Laid, Run, TotalCost, Claim, Coherent, Subscribed, SentBefore, Flatten, Effects.LastWrite;
      ghost var w := State();
      es := Loop(requests);
      forall k | 0 <= k < |es| ensures EventOk(es[k]) && (es[k].Input? ==> forall j :: !es[k].refusals(j)) {
        assert Answers(es[k], requests[k]) && Spared(es[k], requests[k]) && Obliged(requests[k]);
      }
      forall i, c, p | Subscribed(w, es, i, c, p)
        ensures Coherent(State(), c, p, SentBefore(w, es, i, c, p)) && c in clients && p in clients[c].subs
      {
        ObligedTellsStore(w, es, i, c, p);
      }
      forall key ensures Effects.Stored(store.Map(), key) == Effects.LastWrite(Erase(w), Flatten(w, es), key) {
        Effects.StoreIsLastWrites(w, es, key);
      }
    }
  }

  /** What happens to the daemon: env is the luck of the store in each command that is carried out. */
  datatype Request = Join(c: nat, text: bool) | Ask(c: nat, cmd: Command, env: nat -> StoreRuns.Luck)

  ghost predicate Answers(e: Event, r: Request)
  {
    match r
    case Join(c, text) => e == Connect(c, text)
    case Ask(c, cmd, _) => e.Input? && e.c == c && e.cmd == cmd
  }

  /** A request of the size that decoders let through, for which the system always obliges. */
  ghost predicate Obliged(r: Request)
  {
    r.Ask? ==> CmdOk(r.cmd) && forall j :: Obliges(r.env(j))
  }

  /** A command is refused only where the system does not oblige. */
  ghost predicate Spared(e: Event, r: Request)
  {
    e.Input? && r.Ask? ==> forall k :: Obliges(r.env(k)) ==> !e.refusals(k)
  }

  function ReqCost(r: Request, page: nat): (n: nat)
  {
    if r.Ask? then CmdCost(r.cmd, page) else 0
  }

  function TotalCost(rs: seq<Request>, page: nat): (n: nat)
  {
    if rs == [] then 0 else TotalCost(rs[..|rs| - 1], page) + ReqCost(rs[|rs| - 1], page)
  }

  lemma {:induction false} TotalNothing(page: nat)
    ensures TotalCost([], page) == 0
  {
  }

  lemma {:induction false} TotalNext(rs: seq<Request>, i: nat, page: nat)
    requires i < |rs|
    ensures TotalCost(rs[..i + 1], page) == TotalCost(rs[..i], page) + ReqCost(rs[i], page)
  {
    assert rs[..i + 1][..i] == rs[..i];
  }

  lemma {:induction false} RunNone(w: World)
    ensures Run(w, []) == w
  {
  }

  lemma {:induction false} StepPassed(w: World, e: Event)
    requires if e.Connect? then e.c in w.clients else e.c !in w.clients
    ensures Step(w, e) == w
  {
  }

  // ---- the refusals of a playback -------------------------------------------------------------------

  ghost function Refusals(done: seq<bool>): (r: nat -> bool)
  {
    (k: nat) => k < |done| && done[k]
  }

  ghost predicate Extends(f: nat -> bool, done: seq<bool>)
  {
    forall i :: 0 <= i < |done| ==> f(i) == done[i]
  }

  /** A playback from w0 gets to w after the refusals done. */
  ghost predicate Reaches(w0: World, c: nat, w: World, done: seq<bool>)
  {
    c in w0.clients && c in w.clients &&
    forall f: nat -> bool :: Extends(f, done) ==> Playback(w0, c, 0, f) == Playback(w, c, |done|, f)
  }

  lemma {:induction false} ReachStart(w: World, c: nat)
    requires c in w.clients
    ensures Reaches(w, c, w, [])
  {
    hide Playback;
  }

  lemma {:induction false} ReachStep(w0: World, c: nat, w: World, done: seq<bool>, refused: bool)
    requires Reaches(w0, c, w, done) && w.clients[c].buf != []
    ensures var o := Direct(Pop(w, c), c, w.clients[c].buf[0], refused);
            if o.ret <= 0 then Playback(w0, c, 0, Refusals(done + [refused])) == o
            else Reaches(w0, c, o.w, done + [refused])
  {
    hide Direct;
    var n, more := |done|, done + [refused];
    var o := Direct(Pop(w, c), c, w.clients[c].buf[0], refused);
    forall f: nat -> bool | Extends(f, more)
      ensures Playback(w0, c, 0, f) == if o.ret <= 0 then o else Playback(o.w, c, n + 1, f)
    {
      assert f(n) == more[n] == refused;
      forall i | 0 <= i < n ensures f(i) == done[i] { assert f(i) == more[i]; }
      assert Extends(f, done);
    }
    assert Extends(Refusals(more), more);
  }

  lemma {:induction false} ReachEnd(w0: World, c: nat, w: World, done: seq<bool>)
    requires Reaches(w0, c, w, done) && w.clients[c].buf == []
    ensures Playback(w0, c, 0, Refusals(done)) == Outcome(w, 1)
  {
    assert Extends(Refusals(done), done);
  }

  lemma {:induction false} PopServing(w: World, c: nat)
    requires OkBut(w, c) && w.clients[c].buf != []
    ensures OkBut(Pop(w, c), c) && CmdOk(w.clients[c].buf[0]) && w.clients[c].buf[0].msg != CMD_BEGIN
  {
    hide StoreOk, SubsOk;
    assert Bufferable(w.clients[c].buf[0]);
  }

  /** A command of client c leaves the buffers of all others alone. */
  ghost predicate OthersBuffers(a: World, b: World, c: nat)
  {
    c in b.clients && forall d :: d != c ==> BufOf(b.clients, d) == BufOf(a.clients, d)
  }

  lemma {:induction false} DirectOthers(w: World, c: nat, cmd: Command, refused: bool)
    requires c in w.clients
    ensures OthersBuffers(w, Direct(w, c, cmd, refused).w, c)
  {
    hide Act, Notified;
  }

  lemma {:induction false} PlaybackOthers(w: World, c: nat, k: nat, refusals: nat -> bool)
    requires c in w.clients
    ensures OthersBuffers(w, Playback(w, c, k, refusals).w, c)
    decreases |w.clients[c].buf|
  {
    hide Direct, BufOf;
    if w.clients[c].buf != [] {
      PopOthers(w, c);
      DirectOthers(Pop(w, c), c, w.clients[c].buf[0], refusals(k));
      var o := Direct(Pop(w, c), c, w.clients[c].buf[0], refusals(k));
      if o.ret > 0 { PlaybackOthers(o.w, c, k + 1, refusals); }
    }
  }

  lemma {:induction false} PopOthers(w: World, c: nat)
    requires c in w.clients && w.clients[c].buf != []
    ensures OthersBuffers(w, Pop(w, c), c)
  {
  }

  lemma {:induction false} ExecOthers(w: World, c: nat, cmd: Command, refusals: nat -> bool)
    requires c in w.clients
    ensures OthersBuffers(w, Exec(w, c, cmd, refusals).w, c)
  {
    hide Direct, Playback;
    var cl := w.clients[c];
    DirectOthers(w, c, cmd, refusals(0));
    if cl.begins > 0 { PlaybackOthers(Set(w, c, cl.(begins := cl.begins - 1)), c, 0, refusals); }
  }
}
