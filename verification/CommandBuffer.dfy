/** The command buffer of a client in daemon/infod.c, with its list and its BEGIN depth. */
module CommandBuffers {
  import opened Bytes
  import opened Infod
  import InfodRuns
  import opened LinkedList

  /** The BEGIN depth and the buffered commands. */
  datatype Buffering = Buffering(begins: nat, buf: seq<Command>)

  /** What a command does to them, if the client stays. */
  function After(b: Buffering, cmd: Command): (r: Buffering)
  {
    if b.begins == 0 then (if cmd.msg == CMD_BEGIN then b.(begins := 1) else b)
    else if cmd.msg == CMD_BEGIN then b.(begins := b.begins + 1)
    else if cmd.msg == CMD_COMMIT then (if b.begins > 1 then b.(begins := b.begins - 1) else Buffering(0, []))
    else b.(buf := b.buf + [cmd])
  }

  /** The commands that it causes to be carried out. */
  function Plays(b: Buffering, cmd: Command): (r: seq<Command>)
  {
    if cmd.msg == MSG_EOF then [cmd]
    else if cmd.msg == CMD_BEGIN then []
    else if b.begins == 0 then [cmd]
    else if cmd.msg == CMD_COMMIT && b.begins == 1 then b.buf
    else []
  }

  function BufferingOf(cl: Client): (r: Buffering)
  {
    Buffering(cl.begins, cl.buf)
  }

  /** This is what the command machine does to a client's record. */
  lemma {:induction false} AfterIsExec(w: World, c: nat, cmd: Command, refusals: nat -> bool)
    requires c in w.clients && InfodRuns.ClientOk(w.clients[c]) && cmd.msg != MSG_EOF && Exec(w, c, cmd, refusals).ret > 0
    ensures c in Exec(w, c, cmd, refusals).w.clients
    ensures BufferingOf(Exec(w, c, cmd, refusals).w.clients[c]) == After(BufferingOf(w.clients[c]), cmd)
  {
    hide Playback, Direct;
    var cl := w.clients[c];
    if cl.begins == 0 {
      DirectBegins(w, c, cmd, refusals(0));
    } else if cmd.msg == CMD_COMMIT && cl.begins == 1 {
      PlaybackEmpties(Set(w, c, cl.(begins := 0)), c, 0, refusals);
    }
  }

  lemma {:induction false} DirectBegins(w: World, c: nat, cmd: Command, refused: bool)
    requires c in w.clients
    ensures var cl := Direct(w, c, cmd, refused).w.clients[c];
            cl.buf == w.clients[c].buf && cl.begins == if cmd.msg == CMD_BEGIN then 1 else w.clients[c].begins
  {
    hide Notified, Subscribe, Unsubscribe, Read, Write, Refuse;
    ActKeepsBuf(w.clients[c], w.store, cmd, refused);
  }

  lemma {:induction false} PlaybackEmpties(w: World, c: nat, k: nat, refusals: nat -> bool)
    requires c in w.clients && w.clients[c].begins == 0 && Playback(w, c, k, refusals).ret > 0
    requires forall i :: 0 <= i < |w.clients[c].buf| ==> InfodRuns.Bufferable(w.clients[c].buf[i])
    ensures var u := Playback(w, c, k, refusals).w; c in u.clients && BufferingOf(u.clients[c]) == Buffering(0, [])
    decreases |w.clients[c].buf|
  {
    hide Direct;
    var buf := w.clients[c].buf;
    if buf != [] {
      assert InfodRuns.Bufferable(buf[0]);
      DirectBegins(Pop(w, c), c, buf[0], refusals(k));
      PlaybackEmpties(Direct(Pop(w, c), c, buf[0], refusals(k)).w, c, k + 1, refusals);
    }
  }

  /** And these are the direct commands that an event amounts to. */
  lemma {:induction false} PlaysIsFlat(w: World, c: nat, cmd: Command, refusals: nat -> bool)
    requires c in w.clients
    ensures var f := InfodRuns.Flat(w, Input(c, cmd, refusals));
            (forall k :: 0 <= k < |f| ==> f[k].Input?) && InfodRuns.Cmds(f) == Plays(BufferingOf(w.clients[c]), cmd)
  {
    var f := InfodRuns.Flat(w, Input(c, cmd, refusals));
    assert |InfodRuns.Cmds(f)| == |f|;
  }

  ghost function Items(ns: seq<Node<Command>>): (r: seq<Command>)
  {
    if ns == [] then [] else Items(ns[..|ns| - 1]) + [ns[|ns| - 1].item]
  }

  lemma {:induction false} ItemsCons(p: Node<Command>, ns: seq<Node<Command>>)
    ensures Items([p] + ns) == [p.item] + Items(ns)
  {
    if ns == [] {
      assert [p] + ns == [p] && [p][..0] == [];
    } else {
      var n := |ns| - 1;
      assert ([p] + ns)[..|ns|] == [p] + ns[..n];
      ItemsCons(p, ns[..n]);
    }
  }

  lemma {:induction false} NoItems()
    ensures Items([]) == []
  {
  }

  lemma {:induction false} ItemsSnoc(ns: seq<Node<Command>>, p: Node<Command>)
    ensures Items(ns + [p]) == Items(ns) + [p.item]
  {
    assert (ns + [p])[..|ns|] == ns;
  }

  class CommandBuffer {
    const list: TailList<Command>
    var begins: nat

    ghost function State(): (r: Buffering)
      reads this, list
    {
      Buffering(begins, Items(list.ns))
    }

    /** Inside a transaction the tail is that of the list; outside one the list is empty. */
    ghost predicate Valid()
      reads this, list, list.repr
    {
      this !in list.repr && list.Valid() && (begins > 0 ==> list.open) && (begins == 0 ==> list.ns == [])
    }

    constructor ()
      ensures Valid() && State() == Buffering(0, []) && fresh(list) && fresh(list.repr)
    {
      list := new TailList();
      begins := 0;
    }

    /** A command into the buffer; aborts is whether APPEND calls abort(). */
    method Keep(cmd: Command) returns (aborts: bool)
      requires Valid() && begins > 0
      modifies list.repr
      ensures Valid() && fresh(list.repr - old(list.repr)) && !aborts
      ensures State() == Buffering(begins, old(State()).buf + [cmd])
    {
      hide Linked, Items;
      var p := new Node(cmd);
      ItemsSnoc(list.ns, p);
      aborts := list.Add(p);
    }

    /** The playback loop; results(k) is what the handler returns for the k-th command. */
    method PlayBack(results: nat -> int) returns (alive: bool, played: seq<Command>)
      requires Valid() && begins == 1
      modifies this, list.repr
      ensures played <= old(State()).buf && list.repr == old(list.repr)
      ensures alive ==> Valid() && State() == Buffering(0, []) && played == old(State()).buf
      ensures alive <==> forall k :: 0 <= k < |old(State()).buf| ==> results(k) > 0
    {
      hide Linked, Items;
      begins := 0;
      played, alive := [], true;
      ghost var buf := Items(list.ns);
      assert Items([]) == [] by { NoItems(); }
      var p := list.Take();
      if p != null { ItemsCons(p, list.ns); }
      while p != null
        invariant list.Valid() && begins == 0 && list.repr == old(list.repr)
        invariant if p == null then list.ns == [] && played == buf else buf == played + [p.item] + Items(list.ns)
        invariant forall k :: 0 <= k < |played| ==> results(k) > 0
        decreases if p == null then 0 else 1 + |list.ns|
      {
        var ret := results(|played|);
        played := played + [p.item];
        if ret <= 0 {
          alive := false;
          return;
        }
        p := list.Take();
        if p != null {
          ItemsCons(p, list.ns);
          assert played + ([p.item] + Items(list.ns)) == played + [p.item] + Items(list.ns);
        }
      }
    }

    /** on_app_input() as far as the buffer goes: the commands carried out, whether the connection stays,
        and whether APPEND calls abort(). */
    method Input(cmd: Command, results: nat -> int) returns (alive: bool, played: seq<Command>, aborts: bool)
      requires Valid()
      modifies this, list.repr
      ensures !aborts && fresh(list.repr - old(list.repr)) && played <= Plays(old(State()), cmd)
      ensures alive ==> Valid() && State() == After(old(State()), cmd) && played == Plays(old(State()), cmd)
      ensures alive <==> cmd.msg != MSG_EOF && forall k :: 0 <= k < |Plays(old(State()), cmd)| ==> results(k) > 0
    {
      hide Linked;
      alive, played, aborts := true, [], false;
      if cmd.msg == MSG_EOF {
        alive, played := false, [cmd];
      } else if begins > 0 {
        if cmd.msg == CMD_BEGIN {
          begins := begins + 1;
        } else if cmd.msg == CMD_COMMIT {
          if begins > 1 {
            begins := begins - 1;
          } else {
            alive, played := PlayBack(results);
          }
        } else {
          aborts := Keep(cmd);
        }
      } else if cmd.msg == CMD_BEGIN {
        list.Begin();
        begins := 1;
      } else {
        played := [cmd];
        alive := results(0) > 0;
      }
    }

    /** Any commands of a connection, up to the one that ends it: whatever they are, APPEND never aborts.
        results(i)(k) is what the handler returns for the k-th command that the i-th causes. */
    method Connection(cmds: seq<Command>, results: nat -> nat -> int) returns (n: nat, aborts: bool)
      requires Valid()
      modifies this, list.repr
      ensures !aborts && n <= |cmds|
      ensures n == |cmds| ==> Valid() && State() == AfterAll(old(State()), cmds)
      ensures n < |cmds| ==> cmds[n].msg == MSG_EOF || exists k :: results(n)(k) <= 0
    {
      hide Linked, After, Plays;
      n, aborts := 0, false;
      var alive := true;
      ghost var b := State();
      while n < |cmds|
        invariant n <= |cmds| && Valid() && !aborts && fresh(list.repr - old(list.repr))
        invariant State() == AfterAll(b, cmds[..n])
        decreases |cmds| - n
      {
        var played;
        alive, played, aborts := Input(cmds[n], results(n));
        if !alive {
          return;
        }
        assert cmds[..n + 1][..n] == cmds[..n];
        n := n + 1;
      }
      assert cmds[..n] == cmds;
    }
  }

  function AfterAll(b: Buffering, cmds: seq<Command>): (r: Buffering)
  {
    if cmds == [] then b else After(AfterAll(b, cmds[..|cmds| - 1]), cmds[|cmds| - 1])
  }
}
