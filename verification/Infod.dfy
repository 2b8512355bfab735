/** The command machine of daemon/infod.c over a finite map: what each client command does to the
    store, the subscriptions and every client's output. */
module Infod {
  import opened Bytes
  import opened Entries
  import Matcher

  const CMD_HELLO: byte := 0x00
  const CMD_SUB: byte := 0x01
  const CMD_UNSUB: byte := 0x02
  const CMD_READ: byte := 0x03
  const CMD_WRITE: byte := 0x04
  const CMD_BEGIN: byte := 0x05
  const CMD_COMMIT: byte := 0x06
  const CMD_PING: byte := 0x07

  const BAD_MSG: nat := 100
  const BAD_ARG: nat := 101
  const TOO_BIG: nat := 102
  const BAD_SEQ: nat := 103
  const INTERNAL: nat := 255

  const MAX_SUBS: nat := 16

  datatype Command = Command(msg: byte, data: seq<byte>)

  /** What the daemon sends to a client. */
  datatype Out = Version | Info(data: seq<byte>) | Pong(data: seq<byte>) | Failed(code: nat)

  /** A client connection: whether it talks text, its subscriptions (newest first) and their count,
      its BEGIN depth and buffered commands, and everything sent to it. */
  datatype Client = Client(text: bool, subs: seq<seq<byte>>, nsubs: int, begins: nat, buf: seq<Command>, out: seq<Out>)

  datatype World = World(store: Contents, clients: map<nat, Client>)

  /** What a command of client cl does: answer the client, or change the store and notify everybody.
      A result of 0 or less closes the connection. */
  datatype Effect = Reply(cl: Client, store: Contents, ret: int) | Notify(store: Contents, data: seq<byte>)

  datatype Outcome = Outcome(w: World, ret: int)

  /** The store's entries in key order. */
  ghost predicate Lists(es: seq<seq<byte>>, m: Contents)
  {
    Sorted(es) && ToMap(es) == m
  }

  ghost function Listing(m: Contents): (r: seq<seq<byte>>)
    ensures (exists es :: Lists(es, m)) ==> Lists(r, m)
  {
    if exists es :: Lists(es, m) then var es :| Lists(es, m); es else []
  }

  /** is_ephemeral(): the key ends with an exclamation mark. */
  predicate BangKey(key: seq<byte>)
  {
    key != [] && key[|key| - 1] == 0x21
  }

  predicate Ephemeral(data: seq<byte>)
  {
    0 in data && BangKey(KeyOf(data))
  }

  /** The INFO messages that a write of data sends for a list of subscriptions. */
  function Notified(subs: seq<seq<byte>>, data: seq<byte>): (r: seq<Out>)
  {
    if subs == [] then []
    else Notified(subs[..|subs| - 1], data) + (if Matcher.Hits(subs[|subs| - 1], KeyOf(data)) then [Info(data)] else [])
  }

  function Told(cl: Client, data: seq<byte>): (r: Client)
  {
    cl.(out := cl.out + Notified(cl.subs, data))
  }

  function NotifyAll(clients: map<nat, Client>, data: seq<byte>): (r: map<nat, Client>)
  {
    map c | c in clients :: Told(clients[c], data)
  }

  /** The INFO messages that a new subscription sends for the entries of the store. */
  function Matching(pattern: seq<byte>, es: seq<seq<byte>>): (r: seq<Out>)
  {
    if es == [] then []
    else Matching(pattern, es[..|es| - 1]) + (if Matcher.Hits(pattern, KeyOf(es[|es| - 1])) then [Info(es[|es| - 1])] else [])
  }

  function Say(cl: Client, o: Out): (r: Client)
  {
    cl.(out := cl.out + [o])
  }

  /** proto_output_error(): only a text client survives, and not an internal error. */
  function Refuse(cl: Client, store: Contents, code: nat): (r: Effect)
  {
    Reply(Say(cl, Failed(code)), store, if cl.text && code != INTERNAL then 1 else -1)
  }

  /** client_find_subscription(): the first subscription with this pattern, newest first. */
  function FindSub(subs: seq<seq<byte>>, pattern: seq<byte>): (r: nat)
    ensures r <= |subs|
    ensures r < |subs| ==> subs[r] == pattern
    ensures r == |subs| <==> pattern !in subs
    ensures pattern !in subs[..r]
  {
    if subs == [] || subs[0] == pattern then 0 else 1 + FindSub(subs[1..], pattern)
  }

  ghost function Subscribe(cl: Client, store: Contents, data: seq<byte>): (r: Effect)
  {
    if cl.nsubs > MAX_SUBS then Refuse(cl, store, TOO_BIG)
    else if 0 in data || Matcher.Parse(data).None? then Refuse(cl, store, BAD_ARG)
    else Reply(cl.(subs := [data] + cl.subs, nsubs := cl.nsubs + 1, out := cl.out + Matching(data, Listing(store))), store, 1)
  }

  function Unsubscribe(cl: Client, store: Contents, data: seq<byte>): (r: Effect)
  {
    var k := FindSub(cl.subs, data);
    if k == |cl.subs| then Reply(cl, store, 1)
    else Reply(cl.(subs := cl.subs[..k] + cl.subs[k + 1..], nsubs := cl.nsubs - 1), store, 1)
  }

  function Read(cl: Client, store: Contents, data: seq<byte>): (r: Effect)
  {
    if 0 in data then Refuse(cl, store, BAD_ARG)
    else Reply(Say(cl, Info(if data in store then store[data] else data)), store, 1)
  }

  /** A write: no NUL deletes, a bang key is only passed on, and anything else is put into the store
      unless the store refuses it. Only an effective write is notified. */
  function Write(cl: Client, store: Contents, data: seq<byte>, refused: bool): (r: Effect)
  {
    var key := KeyOf(data);
    if 0 !in data then
      if data !in store then Reply(cl, store, 1) else Notify(store - {data}, data)
    else if Ephemeral(data) then Notify(store, data)
    else if key in store && store[key] == data then Reply(cl, store, 1)
    else if refused then Refuse(cl, store - {key}, INTERNAL)
    else Notify(store[key := data], data)
  }

  /** on_app_input() outside a transaction. */
  ghost function Act(cl: Client, store: Contents, cmd: Command, refused: bool): (r: Effect)
  {
    if cmd.msg == MSG_EOF then Reply(cl, store, 0)
    else if cmd.msg == CMD_HELLO then Reply(Say(cl, Version), store, 1)
    else if cmd.msg == CMD_SUB then Subscribe(cl, store, cmd.data)
    else if cmd.msg == CMD_UNSUB then Unsubscribe(cl, store, cmd.data)
    else if cmd.msg == CMD_READ then Read(cl, store, cmd.data)
    else if cmd.msg == CMD_WRITE then Write(cl, store, cmd.data, refused)
    else if cmd.msg == CMD_PING then Reply(Say(cl, Pong(cmd.data)), store, 1)
    else if cmd.msg == CMD_BEGIN then Reply(cl.(begins := 1), store, 1)
    else if cmd.msg == CMD_COMMIT then Refuse(cl, store, BAD_SEQ)
    else Refuse(cl, store, BAD_MSG)
  }

  function Set(w: World, c: nat, cl: Client): (r: World)
  {
    w.(clients := w.clients[c := cl])
  }

  function Apply(w: World, c: nat, e: Effect): (r: Outcome)
  {
    match e
    case Reply(cl, store, ret) => Outcome(World(store, w.clients[c := cl]), ret)
    case Notify(store, data) => Outcome(World(store, NotifyAll(w.clients, data)), 1)
  }

  ghost function Direct(w: World, c: nat, cmd: Command, refused: bool): (r: Outcome)
    requires c in w.clients
    ensures c in r.w.clients && r.w.clients[c].buf == w.clients[c].buf
  {
    ActKeepsBuf(w.clients[c], w.store, cmd, refused);
    Apply(w, c, Act(w.clients[c], w.store, cmd, refused))
  }

  lemma {:induction false} ActKeepsBuf(cl: Client, store: Contents, cmd: Command, refused: bool)
    ensures var e := Act(cl, store, cmd, refused);
            e.Reply? ==> e.cl.buf == cl.buf && e.cl.text == cl.text && (cmd.msg != CMD_BEGIN ==> e.cl.begins == cl.begins)
  {
    hide Matching, Matcher.Parse, KeyOf, Listing, FindSub;
  }

  function Pop(w: World, c: nat): (r: World)
    requires c in w.clients && w.clients[c].buf != []
  {
    Set(w, c, w.clients[c].(buf := w.clients[c].buf[1..]))
  }

  /** The playback loop of buffer_command(): k commands have been played so far. refusals(k) says
      whether the store refuses the k-th. */
  ghost function Playback(w: World, c: nat, k: nat, refusals: nat -> bool): (r: Outcome)
    requires c in w.clients
    decreases |w.clients[c].buf|
  {
    if w.clients[c].buf == [] then Outcome(w, 1)
    else
      var o := Direct(Pop(w, c), c, w.clients[c].buf[0], refusals(k));
      if o.ret <= 0 then o else Playback(o.w, c, k + 1, refusals)
  }

  /** buffer_command() */
  ghost function Buffer(w: World, c: nat, cmd: Command, refusals: nat -> bool): (r: Outcome)
    requires c in w.clients && w.clients[c].begins > 0
  {
    var cl := w.clients[c];
    if cmd.msg == CMD_BEGIN then Outcome(Set(w, c, cl.(begins := cl.begins + 1)), 1)
    else if cmd.msg == CMD_COMMIT then
      var w' := Set(w, c, cl.(begins := cl.begins - 1));
      if cl.begins > 1 then Outcome(w', 1) else Playback(w', c, 0, refusals)
    else Outcome(Set(w, c, cl.(buf := cl.buf + [cmd])), 1)
  }

  /** on_app_input() */
  ghost function Exec(w: World, c: nat, cmd: Command, refusals: nat -> bool): (r: Outcome)
    requires c in w.clients
  {
    if cmd.msg != MSG_EOF && w.clients[c].begins > 0 then Buffer(w, c, cmd, refusals)
    else Direct(w, c, cmd, refusals(0))
  }

  /** on_net_close() follows a result that is not positive. */
  function Settle(o: Outcome, c: nat): (r: World)
  {
    if o.ret <= 0 then o.w.(clients := o.w.clients - {c}) else o.w
  }

  /** What the daemon sees: a new connection, or a command of a client. */
  datatype Event = Connect(c: nat, text: bool) | Input(c: nat, cmd: Command, refusals: nat -> bool)

  /** One event. A connection gets an unused number, and input of a client that is gone is not read. */
  ghost function Step(w: World, e: Event): (r: World)
  {
    match e
    case Connect(c, text) => if c in w.clients then w else Set(w, c, Client(text, [], 0, 0, [], []))
    case Input(c, cmd, refusals) => if c in w.clients then Settle(Exec(w, c, cmd, refusals), c) else w
  }

  ghost function Run(w: World, es: seq<Event>): (r: World)
    decreases |es|
  {
    if es == [] then w else Run(Step(w, es[0]), es[1..])
  }
}
