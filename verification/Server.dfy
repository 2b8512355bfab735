/** The socket table and the poll pass of daemon/server.c. */
module Servers {

  const INCREMENT: nat := 16

  /** struct pollfd: events is POLLIN or 0, revents is what poll() reported. */
  datatype PollFd = PollFd(fd: int, events: bool, revents: bool)
  /** struct server_socket; 0 stands for NULL. */
  datatype Sock = Sock(data: nat, listener: nat, isListener: bool)

  datatype Row = Row(pfd: PollFd, sock: Sock)

  /** A client connection: what on_ready() and on_close() are told. */
  datatype Conn = Conn(fd: int, data: nat)

  // ---- tables as sequences --------------------------------------------------------------------------

  function Zip(a: seq<PollFd>, b: seq<Sock>): (r: seq<Row>)
    requires |a| == |b|
    ensures |r| == |a| && forall k :: 0 <= k < |r| ==> r[k] == Row(a[k], b[k])
  {
    if a == [] then [] else [Row(a[0], b[0])] + Zip(a[1..], b[1..])
  }

  lemma {:induction false} ZipIs(a: seq<PollFd>, b: seq<Sock>, r: seq<Row>)
    requires |a| == |b| == |r| && forall k :: 0 <= k < |r| ==> r[k] == Row(a[k], b[k])
    ensures Zip(a, b) == r
  {
    hide Zip;
    var z := Zip(a, b);
    assert |z| == |a| && forall k :: 0 <= k < |z| ==> z[k] == Row(a[k], b[k]) by { ZipAt(a, b); }
  }

  lemma {:induction false} ZipAt(a: seq<PollFd>, b: seq<Sock>)
    requires |a| == |b|
    ensures |Zip(a, b)| == |a| && forall k :: 0 <= k < |a| ==> Zip(a, b)[k] == Row(a[k], b[k])
  {
  }

  function Switched(r: Row, on: bool): (s: Row)
  {
    if !r.sock.isListener then r
    else if on then r.(pfd := r.pfd.(events := true))
    else r.(pfd := r.pfd.(events := false, revents := false))
  }

  /** All listeners enabled or disabled. */
  function Toggle(rows: seq<Row>, on: bool): (r: seq<Row>)
    ensures |r| == |rows| && forall k :: 0 <= k < |rows| ==> r[k] == Switched(rows[k], on)
  {
    if rows == [] then [] else Toggle(rows[..|rows| - 1], on) + [Switched(rows[|rows| - 1], on)]
  }

  /** The last row takes the place of row i. */
  function SwapRemove(rows: seq<Row>, i: nat): (r: seq<Row>)
    requires i < |rows|
  {
    var last := |rows| - 1;
    if i < last then rows[..last][i := rows[last]] else rows[..last]
  }

  function ConnOf(r: Row): (c: Conn)
  {
    Conn(r.pfd.fd, r.sock.data)
  }

  /** The union of f over the rows. */
  function Gather(rows: seq<Row>, f: Row -> multiset<Conn>): (r: multiset<Conn>)
  {
    if rows == [] then multiset{} else Gather(rows[..|rows| - 1], f) + f(rows[|rows| - 1])
  }

  function ReadyRow(r: Row): (m: multiset<Conn>)
  {
    if r.pfd.revents && !r.sock.isListener then multiset{ConnOf(r)} else multiset{}
  }

  function BusyRow(r: Row): (m: multiset<Conn>)
  {
    if r.pfd.revents then multiset{ConnOf(r)} else multiset{}
  }

  function ClientRow(r: Row): (m: multiset<Conn>)
  {
    if r.sock.isListener then multiset{} else multiset{ConnOf(r)}
  }

  /** The clients that poll() found ready. */
  function Ready(rows: seq<Row>): (r: multiset<Conn>)
  {
    Gather(rows, ReadyRow)
  }

  /** All clients. */
  function Clients(rows: seq<Row>): (r: multiset<Conn>)
  {
    Gather(rows, ClientRow)
  }

  ghost predicate DistinctFds(rows: seq<Row>)
  {
    forall i, j :: 0 <= i < j < |rows| ==> rows[i].pfd.fd != rows[j].pfd.fd
  }

  function Fds(rows: seq<Row>): (r: seq<int>)
    ensures |r| == |rows| && forall k :: 0 <= k < |rows| ==> r[k] == rows[k].pfd.fd
  {
    if rows == [] then [] else Fds(rows[..|rows| - 1]) + [rows[|rows| - 1].pfd.fd]
  }

  /** Listeners are enabled exactly while there is room for one more socket. */
  ghost predicate Gated(rows: seq<Row>, max: nat)
  {
    forall k :: 0 <= k < |rows| && rows[k].sock.isListener ==> (rows[k].pfd.events <==> max == 0 || |rows| < max)
  }

  /** poll() reports only requested events. */
  ghost predicate Asked(rows: seq<Row>)
  {
    forall k :: 0 <= k < |rows| && rows[k].pfd.revents ==> rows[k].pfd.events
  }

  ghost predicate Quiet(rows: seq<Row>)
  {
    forall k :: 0 <= k < |rows| ==> !rows[k].pfd.revents
  }

  // ---- the tables' laws -----------------------------------------------------------------------------

  lemma {:induction false} GatherSplit(a: seq<Row>, b: seq<Row>, f: Row -> multiset<Conn>)
    ensures Gather(a + b, f) == Gather(a, f) + Gather(b, f)
    decreases |b|
  {
    if b == [] {
      assert a + b == a;
    } else {
      var n := |b| - 1;
      assert (a + b)[..|a + b| - 1] == a + b[..n];
      GatherSplit(a, b[..n], f);
    }
  }

  lemma {:induction false} GatherOne(r: Row, f: Row -> multiset<Conn>)
    ensures Gather([r], f) == f(r)
  {
    assert [r][..0] == [];
  }

  lemma {:induction false} GatherHead(rows: seq<Row>, i: nat, f: Row -> multiset<Conn>)
    requires i < |rows|
    ensures Gather(rows[i..], f) == f(rows[i]) + Gather(rows[i + 1..], f)
  {
    hide Gather;
    assert rows[i..] == [rows[i]] + rows[i + 1..];
    GatherSplit([rows[i]], rows[i + 1..], f);
    GatherOne(rows[i], f);
  }

  lemma {:induction false} GatherAt(rows: seq<Row>, i: nat, f: Row -> multiset<Conn>)
    requires i <= |rows|
    ensures Gather(rows, f) == Gather(rows[..i], f) + Gather(rows[i..], f)
  {
    hide Gather;
    assert rows == rows[..i] + rows[i..];
    GatherSplit(rows[..i], rows[i..], f);
  }

  lemma {:induction false} GatherSame(a: seq<Row>, b: seq<Row>, f: Row -> multiset<Conn>)
    requires |a| == |b| && forall k :: 0 <= k < |a| ==> f(a[k]) == f(b[k])
    ensures Gather(a, f) == Gather(b, f)
  {
    if a != [] { GatherSame(a[..|a| - 1], b[..|b| - 1], f); }
  }

  lemma {:induction false} GatherNone(rows: seq<Row>, f: Row -> multiset<Conn>)
    requires forall k :: 0 <= k < |rows| ==> f(rows[k]) == multiset{}
    ensures Gather(rows, f) == multiset{}
  {
    if rows != [] { GatherNone(rows[..|rows| - 1], f); }
  }

  lemma {:induction false} GatherFewer(a: seq<Row>, b: seq<Row>, f: Row -> multiset<Conn>)
    requires |a| == |b| && forall k :: 0 <= k < |a| ==> |f(a[k])| <= |f(b[k])|
    ensures |Gather(a, f)| <= |Gather(b, f)|
  {
    if a != [] { GatherFewer(a[..|a| - 1], b[..|b| - 1], f); }
  }

  /** Taking row i out by moving the last row into its place loses no other row. */
  lemma {:induction false} SwapGather(rows: seq<Row>, i: nat, f: Row -> multiset<Conn>)
    requires i < |rows|
    ensures SwapRemove(rows, i)[..i] == rows[..i]
    ensures Gather(SwapRemove(rows, i)[i..], f) == Gather(rows[i + 1..], f)
  {
    hide Gather;
    var last, r := |rows| - 1, SwapRemove(rows, i);
    if i < last {
      assert r[i..] == [rows[last]] + rows[i + 1..last];
      assert rows[i + 1..] == rows[i + 1..last] + [rows[last]];
      GatherSplit([rows[last]], rows[i + 1..last], f);
      GatherSplit(rows[i + 1..last], [rows[last]], f);
    } else {
      assert r[i..] == [] && rows[i + 1..] == [];
    }
  }

  lemma {:induction false} SwapTakes(rows: seq<Row>, i: nat, f: Row -> multiset<Conn>)
    requires i < |rows|
    ensures Gather(SwapRemove(rows, i), f) + f(rows[i]) == Gather(rows, f)
  {
    hide Gather, SwapRemove;
    SwapGather(rows, i, f);
    SwapSize(rows, i);
    GatherAt(SwapRemove(rows, i), i, f);
    GatherAt(rows, i, f);
    GatherHead(rows, i, f);
  }

  lemma {:induction false} SwapSize(rows: seq<Row>, i: nat)
    requires i < |rows|
    ensures |SwapRemove(rows, i)| == |rows| - 1
    ensures forall k :: 0 <= k < |rows| - 1 ==> SwapRemove(rows, i)[k] == rows[if k == i then |rows| - 1 else k]
  {
  }

  lemma {:induction false} ToggleAt(rows: seq<Row>, on: bool)
    ensures |Toggle(rows, on)| == |rows| && forall k :: 0 <= k < |rows| ==> Toggle(rows, on)[k] == Switched(rows[k], on)
  {
  }

  /** Enabling and disabling listeners does nothing to clients. */
  lemma {:induction false} ToggleClients(rows: seq<Row>, on: bool, i: nat)
    requires i <= |rows|
    ensures |Toggle(rows, on)| == |rows|
    ensures Gather(Toggle(rows, on)[i..], ReadyRow) == Gather(rows[i..], ReadyRow)
    ensures Gather(Toggle(rows, on)[i..], ClientRow) == Gather(rows[i..], ClientRow)
    ensures |Gather(Toggle(rows, on)[i..], BusyRow)| <= |Gather(rows[i..], BusyRow)|
  {
    hide Gather, Toggle;
    ToggleAt(rows, on);
    var a, b := Toggle(rows, on)[i..], rows[i..];
    assert forall k :: 0 <= k < |a| ==> a[k] == Switched(b[k], on);
    GatherSame(a, b, ReadyRow);
    GatherSame(a, b, ClientRow);
    GatherFewer(a, b, BusyRow);
  }

  // ---- adding and closing ---------------------------------------------------------------------------

  function Gate(rows: seq<Row>, max: nat): (r: seq<Row>)
  {
    if max != 0 && |rows| >= max then Toggle(rows, false) else rows
  }

  /** The table after server_add_socket(). */
  function Added(rows: seq<Row>, fd: int, max: nat): (r: seq<Row>)
  {
    Gate(rows + [Row(PollFd(fd, true, false), Sock(0, 0, false))], max)
  }

  /** The table after close_delete_socket(). */
  function Closed(rows: seq<Row>, i: nat, max: nat): (r: seq<Row>)
    requires i < |rows|
  {
    var rows' := SwapRemove(rows, i);
    if max != 0 && |rows'| == max - 1 then Toggle(rows', true) else rows'
  }

  /** What holds of the table throughout a poll pass. */
  ghost predicate Sound(rows: seq<Row>, max: nat)
  {
    DistinctFds(rows) && Gated(rows, max) && Asked(rows)
  }

  lemma {:induction false} AddedSound(rows: seq<Row>, fd: int, max: nat)
    requires Sound(rows, max) && fd !in Fds(rows)
    ensures Sound(Added(rows, fd, max), max)
  {
    hide Toggle, Fds;
    var b := rows + [Row(PollFd(fd, true, false), Sock(0, 0, false))];
    forall k | 0 <= k < |rows| ensures b[k] == rows[k] && b[k].pfd.fd != fd { FdIn(rows, k); }
    ToggleAt(b, false);
  }

  lemma {:induction false} FdIn(rows: seq<Row>, k: nat)
    requires k < |rows|
    ensures rows[k].pfd.fd in Fds(rows)
  {
    assert Fds(rows)[k] == rows[k].pfd.fd;
  }

  lemma {:induction false} ClosedSound(rows: seq<Row>, i: nat, max: nat)
    requires Sound(rows, max) && i < |rows|
    ensures Sound(Closed(rows, i, max), max)
  {
    hide Toggle, SwapRemove;
    SwapSize(rows, i);
    ToggleAt(SwapRemove(rows, i), true);
  }

  // ---- the steps of a poll pass ---------------------------------------------------------------------

  function Cleared(rows: seq<Row>, i: nat): (r: seq<Row>)
    requires i < |rows|
  {
    rows[i := rows[i].(pfd := rows[i].pfd.(revents := false))]
  }

  /** The newest row gets the data that on_accept() returned. */
  function Named(rows: seq<Row>, data: nat, listener: nat): (r: seq<Row>)
    requires rows != []
  {
    var last := |rows| - 1;
    rows[last := rows[last].(sock := Sock(data, listener, false))]
  }

  /** Rows below i are done with, and what has been dispatched and what is ready further on make up
      the clients that were ready at first. */
  ghost predicate Progress(ready: multiset<Conn>, rows: seq<Row>, i: nat, done: seq<Conn>)
  {
    i <= |rows| && Quiet(rows[..i]) && multiset(done) + Ready(rows[i..]) == ready
  }

  lemma {:induction false} ClearedRest(rows: seq<Row>, i: nat, f: Row -> multiset<Conn>)
    requires i < |rows|
    ensures Cleared(rows, i)[i + 1..] == rows[i + 1..] && Cleared(rows, i)[..i] == rows[..i]
    ensures Gather(rows[i..], f) == f(rows[i]) + Gather(Cleared(rows, i)[i + 1..], f)
  {
    hide Gather;
    GatherHead(rows, i, f);
  }

  lemma {:induction false} QuietSnoc(rows: seq<Row>, i: nat)
    requires i < |rows| && Quiet(rows[..i]) && !rows[i].pfd.revents
    ensures Quiet(rows[..i + 1])
  {
    assert rows[..i + 1] == rows[..i] + [rows[i]];
  }

  lemma {:induction false} ClearedSound(rows: seq<Row>, i: nat, max: nat)
    requires Sound(rows, max) && i < |rows|
    ensures Sound(Cleared(rows, i), max)
  {
  }

  lemma {:induction false} ClearedClients(rows: seq<Row>, i: nat)
    requires i < |rows|
    ensures Clients(Cleared(rows, i)) == Clients(rows)
  {
    hide Gather;
    GatherSame(Cleared(rows, i), rows, ClientRow);
  }

  /** A quiet row. */
  lemma {:induction false} PassQuiet(ready: multiset<Conn>, rows: seq<Row>, i: nat, done: seq<Conn>)
    requires Progress(ready, rows, i, done) && i < |rows| && !rows[i].pfd.revents
    ensures Progress(ready, rows, i + 1, done)
    ensures Gather(rows[i + 1..], BusyRow) == Gather(rows[i..], BusyRow)
  {
    hide Gather, Quiet;
    GatherHead(rows, i, ReadyRow);
    GatherHead(rows, i, BusyRow);
    QuietSnoc(rows, i);
  }

  /** A ready client that stays. */
  lemma {:induction false} PassKeep(ready: multiset<Conn>, rows: seq<Row>, i: nat, done: seq<Conn>)
    requires Progress(ready, rows, i, done) && i < |rows| && rows[i].pfd.revents && !rows[i].sock.isListener
    ensures Progress(ready, Cleared(rows, i), i + 1, done + [ConnOf(rows[i])])
    ensures |Gather(Cleared(rows, i)[i + 1..], BusyRow)| < |Gather(rows[i..], BusyRow)|
  {
    hide Gather, Quiet;
    ClearedRest(rows, i, ReadyRow);
    ClearedRest(rows, i, BusyRow);
    QuietSnoc(Cleared(rows, i), i);
  }

  lemma {:induction false} ClosedRest(rows: seq<Row>, i: nat, max: nat)
    requires i < |rows|
    ensures |Closed(rows, i, max)| == |rows| - 1
    ensures Quiet(rows[..i]) ==> Quiet(Closed(rows, i, max)[..i])
    ensures Ready(Closed(rows, i, max)[i..]) == Ready(rows[i + 1..])
    ensures |Gather(Closed(rows, i, max)[i..], BusyRow)| <= |Gather(rows[i + 1..], BusyRow)|
    ensures Clients(Closed(rows, i, max)) + ClientRow(rows[i]) == Clients(rows)
  {
    hide Gather, Toggle, SwapRemove;
    var r := SwapRemove(rows, i);
    SwapSize(rows, i);
    SwapGather(rows, i, ReadyRow);
    SwapGather(rows, i, BusyRow);
    SwapTakes(rows, i, ClientRow);
    ToggleAt(r, true);
    ToggleClients(r, true, i);
    ToggleClients(r, true, 0);
    assert r[0..] == r && Toggle(r, true)[0..] == Toggle(r, true);
    if Quiet(rows[..i]) {
      forall k | 0 <= k < i ensures !Closed(rows, i, max)[..i][k].pfd.revents {
        assert rows[..i][k] == r[k];
      }
    }
  }

  /** A ready client that is closed: the row that takes its place is looked at next. */
  lemma {:induction false} PassClose(ready: multiset<Conn>, rows: seq<Row>, i: nat, done: seq<Conn>, max: nat)
    requires Progress(ready, rows, i, done) && i < |rows| && rows[i].pfd.revents && !rows[i].sock.isListener
    ensures var r := Closed(Cleared(rows, i), i, max);
            Progress(ready, r, i, done + [ConnOf(rows[i])]) &&
            |Gather(r[i..], BusyRow)| < |Gather(rows[i..], BusyRow)| &&
            Clients(r) + multiset{ConnOf(rows[i])} == Clients(rows)
  {
    hide Gather, Quiet, Closed;
    ClearedRest(rows, i, ReadyRow);
    ClearedRest(rows, i, BusyRow);
    ClearedClients(rows, i);
    ClosedRest(Cleared(rows, i), i, max);
  }

  /** A listener that yields no connection. */
  lemma {:induction false} PassIdle(ready: multiset<Conn>, rows: seq<Row>, i: nat, done: seq<Conn>)
    requires Progress(ready, rows, i, done) && i < |rows| && rows[i].pfd.revents && rows[i].sock.isListener
    ensures Progress(ready, Cleared(rows, i), i + 1, done)
    ensures |Gather(Cleared(rows, i)[i + 1..], BusyRow)| < |Gather(rows[i..], BusyRow)|
  {
    hide Gather, Quiet;
    ClearedRest(rows, i, ReadyRow);
    ClearedRest(rows, i, BusyRow);
    QuietSnoc(Cleared(rows, i), i);
  }

  lemma {:induction false} NamedAt(rows: seq<Row>, fd: int, max: nat, data: nat, listener: nat)
    ensures Added(rows, fd, max) != []
    ensures var r := Named(Added(rows, fd, max), data, listener);
            |r| == |rows| + 1 && r[|rows|] == Row(PollFd(fd, true, false), Sock(data, listener, false)) &&
            forall k :: 0 <= k < |rows| ==> r[k] == if max != 0 && |rows| + 1 >= max then Switched(rows[k], false) else rows[k]
  {
    hide Toggle;
    ToggleAt(rows + [Row(PollFd(fd, true, false), Sock(0, 0, false))], false);
  }

  /** a is b, but for some listeners that have been disabled. */
  ghost predicate Muted(a: seq<Row>, b: seq<Row>)
  {
    |a| == |b| && forall k :: 0 <= k < |a| ==> a[k] == b[k] || a[k] == Switched(b[k], false)
  }

  lemma {:induction false} MutedGather(a: seq<Row>, b: seq<Row>)
    requires Muted(a, b)
    ensures Ready(a) == Ready(b) && Clients(a) == Clients(b) && |Gather(a, BusyRow)| <= |Gather(b, BusyRow)|
    ensures Quiet(b) ==> Quiet(a)
  {
    hide Gather;
    GatherSame(a, b, ReadyRow);
    GatherSame(a, b, ClientRow);
    GatherFewer(a, b, BusyRow);
  }

  lemma {:induction false} MutedParts(a: seq<Row>, b: seq<Row>, i: nat)
    requires Muted(a, b) && i <= |a|
    ensures Muted(a[..i], b[..i]) && Muted(a[i..], b[i..])
  {
    hide Switched;
  }

  lemma {:induction false} GatherLast(a: seq<Row>, x: Row, i: nat, f: Row -> multiset<Conn>)
    requires i <= |a|
    ensures (a + [x])[..i] == a[..i] && Gather((a + [x])[i..], f) == Gather(a[i..], f) + f(x)
  {
    hide Gather;
    assert (a + [x])[i..] == a[i..] + [x];
    GatherSplit(a[i..], [x], f);
    GatherOne(x, f);
  }

  lemma {:induction false} NamedMuted(rows: seq<Row>, fd: int, max: nat, data: nat, listener: nat) returns (a: seq<Row>)
    ensures Named(Added(rows, fd, max), data, listener) == a + [Row(PollFd(fd, true, false), Sock(data, listener, false))]
    ensures Muted(a, rows)
  {
    hide Added, Named;
    NamedAt(rows, fd, max, data, listener);
    var r := Named(Added(rows, fd, max), data, listener);
    a := r[..|rows|];
    assert r == a + [r[|rows|]];
  }

  lemma {:induction false} NamedRest(rows: seq<Row>, fd: int, max: nat, data: nat, listener: nat, i: nat)
    requires i <= |rows|
    ensures var r := Named(Added(rows, fd, max), data, listener);
            |r| == |rows| + 1 &&
            (Quiet(rows[..i]) ==> Quiet(r[..i])) &&
            Ready(r[i..]) == Ready(rows[i..]) && |Gather(r[i..], BusyRow)| <= |Gather(rows[i..], BusyRow)| &&
            Clients(r) == Clients(rows) + multiset{Conn(fd, data)}
  {
    hide Gather, Added, Named, Quiet;
    var a := NamedMuted(rows, fd, max, data, listener);
    var x := Row(PollFd(fd, true, false), Sock(data, listener, false));
    MutedParts(a, rows, i);
    MutedGather(a[i..], rows[i..]);
    MutedGather(a[..i], rows[..i]);
    MutedGather(a, rows);
    GatherLast(a, x, i, ReadyRow);
    GatherLast(a, x, i, BusyRow);
    GatherSplit(a, [x], ClientRow);
    GatherOne(x, ClientRow);
  }

  lemma {:induction false} NamedSound(rows: seq<Row>, fd: int, max: nat, data: nat, listener: nat)
    requires Sound(Added(rows, fd, max), max)
    ensures Sound(Named(Added(rows, fd, max), data, listener), max)
  {
    hide Toggle;
    NamedAt(rows, fd, max, data, listener);
    ToggleAt(rows + [Row(PollFd(fd, true, false), Sock(0, 0, false))], false);
  }

  /** A listener that yields a connection: it goes to the end of the table, and is quiet. */
  lemma {:induction false} PassAccept(ready: multiset<Conn>, rows: seq<Row>, i: nat, done: seq<Conn>, fd: int, max: nat,
                                      data: nat, listener: nat)
    requires Progress(ready, rows, i, done) && i < |rows| && rows[i].pfd.revents && rows[i].sock.isListener
    ensures var r := Named(Added(Cleared(rows, i), fd, max), data, listener);
            Progress(ready, r, i + 1, done) &&
            |Gather(r[i + 1..], BusyRow)| < |Gather(rows[i..], BusyRow)| &&
            Clients(r) == Clients(rows) + multiset{Conn(fd, data)}
  {
    hide Gather, Quiet, Named, Added;
    PassIdle(ready, rows, i, done);
    ClearedClients(rows, i);
    NamedRest(Cleared(rows, i), fd, max, data, listener, i + 1);
  }

  /** Listeners that poll() reports are enabled, so there is room for one more. */
  lemma {:induction false} RoomToAccept(rows: seq<Row>, i: nat, max: nat)
    requires Sound(rows, max) && i < |rows| && rows[i].sock.isListener && rows[i].pfd.revents && max != 0
    ensures |rows| < max
  {
  }

  // ---- listeners in a poll pass ---------------------------------------------------------------------

  function ListenRow(r: Row): (m: multiset<Conn>)
  {
    if r.pfd.revents && r.sock.isListener then multiset{ConnOf(r)} else multiset{}
  }

  /** The listeners that poll() found ready. */
  function Callers(rows: seq<Row>): (r: multiset<Conn>)
  {
    Gather(rows, ListenRow)
  }

  /** As long as the limit is out of reach, the listeners heard so far and those ready further on are the
      ones that were ready at first. */
  ghost predicate Hearing(all: multiset<Conn>, rows: seq<Row>, i: nat, heard: seq<Conn>, max: nat)
  {
    i <= |rows| && (max == 0 || |rows| + |Callers(rows[i..])| < max) && multiset(heard) + Callers(rows[i..]) == all
  }

  lemma {:induction false} HearStart(rows: seq<Row>, max: nat)
    requires max == 0 || |rows| + |Callers(rows)| < max
    ensures Hearing(Callers(rows), rows, 0, [], max)
  {
    assert rows[0..] == rows;
  }

  lemma {:induction false} HearEnd(all: multiset<Conn>, rows: seq<Row>, heard: seq<Conn>, max: nat)
    requires Hearing(all, rows, |rows|, heard, max)
    ensures multiset(heard) == all
  {
    assert rows[|rows|..] == [];
  }

  lemma {:induction false} HearQuiet(all: multiset<Conn>, rows: seq<Row>, i: nat, heard: seq<Conn>, max: nat)
    requires Hearing(all, rows, i, heard, max) && i < |rows| && !rows[i].pfd.revents
    ensures Hearing(all, rows, i + 1, heard, max)
  {
    hide Gather;
    GatherHead(rows, i, ListenRow);
  }

  lemma {:induction false} HearKeep(all: multiset<Conn>, rows: seq<Row>, i: nat, heard: seq<Conn>, max: nat)
    requires Hearing(all, rows, i, heard, max) && i < |rows| && !rows[i].sock.isListener
    ensures Hearing(all, Cleared(rows, i), i + 1, heard, max)
  {
    hide Gather;
    ClearedRest(rows, i, ListenRow);
  }

  lemma {:induction false} HearClose(all: multiset<Conn>, rows: seq<Row>, i: nat, heard: seq<Conn>, max: nat)
    requires Hearing(all, rows, i, heard, max) && i < |rows| && !rows[i].sock.isListener
    ensures Hearing(all, Closed(Cleared(rows, i), i, max), i, heard, max)
  {
    hide Gather, Toggle, SwapRemove;
    var c := Cleared(rows, i);
    ClearedRest(rows, i, ListenRow);
    SwapSize(c, i);
    SwapGather(c, i, ListenRow);
    var r := SwapRemove(c, i);
    ToggleAt(r, true);
    GatherSame(Toggle(r, true)[i..], r[i..], ListenRow);
  }

  lemma {:induction false} HearIdle(all: multiset<Conn>, rows: seq<Row>, i: nat, heard: seq<Conn>, max: nat)
    requires Hearing(all, rows, i, heard, max) && i < |rows| && rows[i].pfd.revents && rows[i].sock.isListener
    ensures Hearing(all, Cleared(rows, i), i + 1, heard + [ConnOf(rows[i])], max)
    ensures max == 0 || |rows| + 1 + |Callers(Cleared(rows, i)[i + 1..])| < max
  {
    hide Gather;
    ClearedRest(rows, i, ListenRow);
    assert |multiset{ConnOf(rows[i])}| == 1;
  }

  lemma {:induction false} HearAccept(all: multiset<Conn>, rows: seq<Row>, i: nat, heard: seq<Conn>, max: nat, fd: int,
                                      data: nat, listener: nat)
    requires Hearing(all, rows, i, heard, max) && i < |rows| && rows[i].pfd.revents && rows[i].sock.isListener
    ensures Added(Cleared(rows, i), fd, max) != []
    ensures Hearing(all, Named(Added(Cleared(rows, i), fd, max), data, listener), i + 1, heard + [ConnOf(rows[i])], max)
  {
    hide Gather, Toggle;
    HearIdle(all, rows, i, heard, max);
    var c, x := Cleared(rows, i), Row(PollFd(fd, true, false), Sock(data, listener, false));
    assert Named(Added(c, fd, max), data, listener) == c + [x];
    GatherLast(c, x, i + 1, ListenRow);
  }

  // ---- the server -----------------------------------------------------------------------------------

  /** What the system and the handlers do in the t-th step of a pass: the result of accept() given the
      descriptors in use, whether the two tables can grow, what on_accept() returns, and what on_ready()
      returns. */
  datatype Env = Env(accept: (nat, seq<int>) -> int, okSocket: nat -> bool, okPollFd: nat -> bool,
                     newData: nat -> nat, onReady: nat -> int)

  /** accept() does not return a descriptor that is in use. */
  ghost predicate Kernel(env: Env)
  {
    forall t, fds :: env.accept(t, fds) == -1 || env.accept(t, fds) !in fds
  }

  /** One turn of a pass that finds events: a client and what on_ready() returned, or a listener and the
      connection that it yielded, if any. */
  datatype Turn = Dispatch(conn: Conn, ret: int) | Hear(conn: Conn, got: seq<Conn>)

  /** The clients that were handed to on_ready(), those that were closed, the new connections, and the listeners. */
  function Dispatched(log: seq<Turn>): (r: seq<Conn>)
  {
    if log == [] then []
    else
      var t := log[|log| - 1];
      Dispatched(log[..|log| - 1]) + if t.Dispatch? then [t.conn] else []
  }

  function Dropped(log: seq<Turn>): (r: seq<Conn>)
  {
    if log == [] then []
    else
      var t := log[|log| - 1];
      Dropped(log[..|log| - 1]) + if t.Dispatch? && t.ret <= 0 then [t.conn] else []
  }

  function Joined(log: seq<Turn>): (r: seq<Conn>)
  {
    if log == [] then []
    else
      var t := log[|log| - 1];
      Joined(log[..|log| - 1]) + if t.Hear? then t.got else []
  }

  function Heard(log: seq<Turn>): (r: seq<Conn>)
  {
    if log == [] then []
    else
      var t := log[|log| - 1];
      Heard(log[..|log| - 1]) + if t.Hear? then [t.conn] else []
  }

  lemma {:induction false} LogSnoc(log: seq<Turn>, t: Turn)
    ensures Dispatched(log + [t]) == Dispatched(log) + if t.Dispatch? then [t.conn] else []
    ensures Dropped(log + [t]) == Dropped(log) + if t.Dispatch? && t.ret <= 0 then [t.conn] else []
    ensures Joined(log + [t]) == Joined(log) + if t.Hear? then t.got else []
    ensures Heard(log + [t]) == Heard(log) + if t.Hear? then [t.conn] else []
  {
    assert (log + [t])[..|log|] == log;
  }

  /** Turn k closed client c. */
  predicate Closes(log: seq<Turn>, k: nat, c: Conn)
  {
    k < |log| && log[k].Dispatch? && log[k].conn == c && log[k].ret <= 0
  }

  /** The clients that were closed are those for which on_ready() returned 0 or less. */
  lemma {:induction false} DroppedExactly(log: seq<Turn>, c: Conn)
    ensures c in Dropped(log) <==> exists k: nat :: Closes(log, k, c)
    decreases |log|
  {
    if log != [] {
      var n := |log| - 1;
      DroppedExactly(log[..n], c);
      if k: nat :| Closes(log[..n], k, c) { assert Closes(log, k, c); }
      if Closes(log, n, c) { assert c in Dropped(log); }
      if k: nat :| Closes(log, k, c) && k < n { assert Closes(log[..n], k, c); }
    }
  }

  /** What a listener yields in step t: the connection that accept() returned, if there was one and the
      tables had room for it. */
  ghost predicate Yields(env: Env, t: nat, fds: seq<int>, got: seq<Conn>)
  {
    var fd := env.accept(t, fds);
    if fd == -1 then got == []
    else got == [Conn(fd, env.newData(t))] || (got == [] && !(env.okSocket(t) && env.okPollFd(t)))
  }

  /** A turn is what the system and the handlers make of it. */
  ghost predicate Follows(turn: Turn, env: Env, t: nat)
  {
    match turn
    case Dispatch(_, ret) => ret == env.onReady(t)
    case Hear(_, got) => exists fds :: Yields(env, t, fds, got)
  }

  /** A pass did this: its turns follow the system and the handlers, and a client is closed exactly if
      on_ready() returned 0 or less for it. */
  ghost predicate Logged(log: seq<Turn>, env: Env, done: seq<Conn>, closed: seq<Conn>, accepted: seq<Conn>)
  {
    done == Dispatched(log) && closed == Dropped(log) && accepted == Joined(log) &&
    forall k :: 0 <= k < |log| ==> Follows(log[k], env, k)
  }

  lemma {:induction false} LogStart(env: Env)
    ensures Logged([], env, [], [], []) && Heard([]) == []
  {
  }

  lemma {:induction false} LogDispatch(log: seq<Turn>, env: Env, done: seq<Conn>, closed: seq<Conn>, accepted: seq<Conn>, conn: Conn)
    requires Logged(log, env, done, closed, accepted)
    ensures var log' := log + [Dispatch(conn, env.onReady(|log|))];
            Logged(log', env, done + [conn], if env.onReady(|log|) <= 0 then closed + [conn] else closed, accepted) &&
            Heard(log') == Heard(log)
  {
    hide Dispatched, Dropped, Joined, Heard;
    LogSnoc(log, Dispatch(conn, env.onReady(|log|)));
  }

  lemma {:induction false} LogHear(log: seq<Turn>, env: Env, done: seq<Conn>, closed: seq<Conn>, accepted: seq<Conn>, conn: Conn,
                                   got: seq<Conn>)
    requires Logged(log, env, done, closed, accepted) && Follows(Hear(conn, got), env, |log|)
    ensures Logged(log + [Hear(conn, got)], env, done, closed, accepted + got) && Heard(log + [Hear(conn, got)]) == Heard(log) + [conn]
  {
    hide Dispatched, Dropped, Joined, Heard;
    LogSnoc(log, Hear(conn, got));
  }

  /** What a pass has done by now. */
  datatype Sofar = Sofar(done: seq<Conn>, closed: seq<Conn>, accepted: seq<Conn>, log: seq<Turn>)

  /** What there was before the pass: all clients, those ready, the listeners ready, and whether the limit is
      out of reach. */
  datatype Goal = Goal(was: multiset<Conn>, ready: multiset<Conn>, all: multiset<Conn>, roomy: bool)

  /** The state of a pass before row i. */
  ghost predicate Passing(g: Goal, rows: seq<Row>, i: nat, max: nat, env: Env, p: Sofar)
  {
    Sound(rows, max) && Progress(g.ready, rows, i, p.done) && Balanced(g.was, p.accepted, p.closed, Clients(rows)) &&
    Logged(p.log, env, p.done, p.closed, p.accepted) && (g.roomy ==> Hearing(g.all, rows, i, Heard(p.log), max))
  }

  class Server {
    const max: nat
    var n: nat
    var nmax: nat
    var socket: array<Sock>
    var pollfd: array<PollFd>

    ghost predicate Sized()
      reads this
    {
      n <= nmax <= socket.Length && nmax <= pollfd.Length
    }

    function Rows(): (r: seq<Row>)
      requires n <= socket.Length && n <= pollfd.Length
      reads this, socket, pollfd
    {
      Zip(pollfd[..n], socket[..n])
    }

    /** Between polls. */
    ghost predicate Valid()
      reads this, socket, pollfd
    {
      Sized() && Sound(Rows(), max) && Quiet(Rows())
    }

    /** server_new() */
    constructor (max: nat)
      ensures Valid() && n == 0 && this.max == max && fresh(socket) && fresh(pollfd)
    {
      this.max := max;
      n, nmax := 0, 0;
      socket := new Sock[0];
      pollfd := new PollFd[0];
    }

    /** server_listen_enable() */
    method ListenEnable(enable: bool)
      requires Sized()
      modifies pollfd
      ensures Sized() && Rows() == Toggle(old(Rows()), enable)
    {
      hide Zip, Toggle;
      for i := 0 to n
        invariant forall k :: 0 <= k < i ==> pollfd[k] == Switched(Row(old(pollfd[k]), socket[k]), enable).pfd
        invariant forall k :: i <= k < pollfd.Length ==> pollfd[k] == old(pollfd[k])
      {
        if socket[i].isListener {
          if enable {
            pollfd[i] := pollfd[i].(events := true);
          } else {
            pollfd[i] := pollfd[i].(revents := false, events := false);
          }
        }
      }
      ZipAt(old(pollfd[..n]), socket[..n]);
      ToggleAt(old(Rows()), enable);
      ZipIs(pollfd[..n], socket[..n], Toggle(old(Rows()), enable));
    }

    /** server_resize(): room for m sockets. */
    method Resize(m: nat, okSocket: bool, okPollFd: bool) returns (r: int)
      requires Sized() && n <= m
      modifies this`nmax, this`socket, this`pollfd
      ensures Sized() && Rows() == old(Rows()) && r in {0, -1} && (r == 0 ==> m <= nmax <= m + INCREMENT)
      ensures fresh(socket) || socket == old(socket)
      ensures fresh(pollfd) || pollfd == old(pollfd)
      ensures okSocket && okPollFd ==> r == 0
    {
      hide Zip;
      var size := if m % INCREMENT == 0 then m else m + (INCREMENT - m % INCREMENT);
      if nmax == size || (nmax > 0 && nmax - 1 == size) {
        return 0;
      }
      if size < nmax {
        nmax := size;
      }
      if size != 0 && !okSocket {
        return -1;
      }
      var socks := socket[..n];
      socket := new Sock[size]((k: nat) => if k < |socks| then socks[k] else Sock(0, 0, false));
      assert forall k :: 0 <= k < n ==> socket[k] == socks[k];
      assert socket[..n] == socks;
      if size != 0 && !okPollFd {
        return -1;
      }
      var pfds := pollfd[..n];
      pollfd := new PollFd[size]((k: nat) => if k < |pfds| then pfds[k] else PollFd(0, false, false));
      assert forall k :: 0 <= k < n ==> pollfd[k] == pfds[k];
      assert pollfd[..n] == pfds;
      nmax := size;
      r := 0;
    }

    /** A new row at the end, within the tables. */
    method PutRow(p: PollFd, q: Sock)
      requires Sized() && n < nmax
      modifies this`n, socket, pollfd
      ensures Sized() && n == old(n) + 1 && Rows() == old(Rows()) + [Row(p, q)]
    {
      hide Zip;
      ZipAt(pollfd[..n], socket[..n]);
      ghost var rows := Rows();
      pollfd[n] := p;
      socket[n] := q;
      n := n + 1;
      assert forall k :: 0 <= k < n - 1 ==> rows[k] == Row(pollfd[k], socket[k]);
      ZipIs(pollfd[..n], socket[..n], rows + [Row(p, q)]);
    }

    /** server_add_socket(): the index of the new row, or -1. */
    method AddSocket(fd: int, okSocket: bool, okPollFd: bool) returns (i: int)
      requires Sized()
      modifies this`n, this`nmax, this`socket, this`pollfd, socket, pollfd
      ensures Sized() && (fresh(socket) || socket == old(socket)) && (fresh(pollfd) || pollfd == old(pollfd))
      ensures i == -1 ==> Rows() == old(Rows())
      ensures i != -1 ==> i == old(n) < n && Rows() == Added(old(Rows()), fd, max)
      ensures okSocket && okPollFd ==> i != -1
    {
      hide Zip, Toggle;
      i := n;
      var r := Resize(n + 1, okSocket, okPollFd);
      if r == -1 {
        return -1;
      }
      PutRow(PollFd(fd, true, false), Sock(0, 0, false));
      if max != 0 && n >= max {
        ListenEnable(false);
      }
    }

    /** server_add_listener(). The new row is not yet marked as a listener while the table may disable
        the listeners, so that one which reaches the limit stays enabled. */
    method AddListener(fd: int, listener: nat, okSocket: bool, okPollFd: bool) returns (r: int)
      requires Valid() && fd !in Fds(Rows())
      modifies this`n, this`nmax, this`socket, this`pollfd, socket, pollfd
      ensures Sized() && (fresh(socket) || socket == old(socket)) && (fresh(pollfd) || pollfd == old(pollfd))
      ensures r == -1 ==> Rows() == old(Rows())
      ensures r == 0 ==> n == old(n) + 1 && (Valid() <==> max == 0 || n < max)
      ensures r == 0 ==> Rows() == Added(old(Rows()), fd, max)[old(n) := Row(PollFd(fd, true, false), Sock(0, listener, true))]
    {
      hide Zip, Fds, Sound, Added;
      var i := AddSocket(fd, okSocket, okPollFd);
      if i < 0 {
        return -1;
      }
      AddedSound(old(Rows()), fd, max);
      ghost var rows := Rows();
      NamedAt(old(Rows()), fd, max, 0, listener);
      ZipAt(pollfd[..n], socket[..n]);
      socket[i] := Sock(0, listener, true);
      r := 0;
      assert rows[i].pfd == pollfd[i];
      ZipIs(pollfd[..n], socket[..n], rows[i := Row(pollfd[i], Sock(0, listener, true))]);
      ListenerSound(old(Rows()), fd, max, listener);
    }

    /** server_add_fd(): the row of fd gets the data that on_accept() returns. */
    method AddFd(fd: int, listener: nat, data: nat, okSocket: bool, okPollFd: bool) returns (r: int)
      requires Sized() && Sound(Rows(), max) && (fd == -1 || fd !in Fds(Rows()))
      modifies this`n, this`nmax, this`socket, this`pollfd, socket, pollfd
      ensures Sized() && (fresh(socket) || socket == old(socket)) && (fresh(pollfd) || pollfd == old(pollfd))
      ensures r == -1 ==> Rows() == old(Rows())
      ensures r == 0 ==> n == old(n) + 1 && Rows() == Named(Added(old(Rows()), fd, max), data, listener)
      ensures r in {0, -1} && (r == -1 <==> fd == -1 || n == old(n))
      ensures fd != -1 && okSocket && okPollFd ==> r == 0
    {
      hide Zip, Fds, Added, Sound;
      if fd == -1 {
        return -1;
      }
      var i := AddSocket(fd, okSocket, okPollFd);
      if i == -1 {
        return -1;
      }
      AddedSound(old(Rows()), fd, max);
      ghost var rows := Rows();
      NamedAt(old(Rows()), fd, max, data, listener);
      ZipAt(pollfd[..n], socket[..n]);
      FirstFd(rows, n - 1, max);
      i := 0;
      while i < n && pollfd[i].fd != fd
        invariant 0 <= i < n
        decreases n - i
      {
        assert rows[i].pfd == pollfd[i];
        i := i + 1;
      }
      assert rows[i].pfd == pollfd[i] && rows[n - 1].pfd == pollfd[n - 1];
      assert i == n - 1;
      socket[i] := Sock(data, listener, false);
      ZipIs(pollfd[..n], socket[..n], Named(rows, data, listener));
      r := 0;
    }

    /** close_delete_socket(): row i goes, and the last row takes its place. Descriptor and data move
        together. */
    method CloseDelete(i: nat, okSocket: bool, okPollFd: bool)
      requires Sized() && i < n && !socket[i].isListener
      modifies this`n, this`nmax, this`socket, this`pollfd, socket, pollfd
      ensures Sized() && (fresh(socket) || socket == old(socket)) && (fresh(pollfd) || pollfd == old(pollfd))
      ensures n == old(n) - 1 && Rows() == Closed(old(Rows()), i, max)
    {
      hide Zip, Toggle, SwapRemove;
      PackRow(i);
      if max != 0 && n == max - 1 {
        ListenEnable(true);
      }
      var _ := Resize(n, okSocket, okPollFd);
    }

    method PackRow(i: nat)
      requires Sized() && i < n
      modifies this`n, socket, pollfd
      ensures Sized() && n == old(n) - 1 && Rows() == SwapRemove(old(Rows()), i)
    {
      hide Zip;
      ZipAt(pollfd[..n], socket[..n]);
      ghost var rows := Rows();
      var last := n - 1;
      if i < last {
        pollfd[i] := pollfd[last];
        socket[i] := socket[last];
      }
      n := n - 1;
      SwapSize(rows, i);
      assert forall k :: 0 <= k < last ==> rows[if k == i then last else k] == Row(pollfd[k], socket[k]);
      ZipIs(pollfd[..n], socket[..n], SwapRemove(rows, i));
    }

    /** pollfd[i].revents = 0 */
    method ClearEvents(i: nat)
      requires Sized() && i < n
      modifies pollfd
      ensures Sized() && Rows() == Cleared(old(Rows()), i)
    {
      hide Zip;
      ZipAt(pollfd[..n], socket[..n]);
      ghost var rows := Rows();
      pollfd[i] := pollfd[i].(revents := false);
      assert forall k :: 0 <= k < n ==> Cleared(rows, i)[k] == Row(pollfd[k], socket[k]);
      ZipIs(pollfd[..n], socket[..n], Cleared(rows, i));
    }

    /** What poll() does to the table. */
    method Report(revents: seq<bool>)
      requires Sized() && |revents| == n
      modifies pollfd
      ensures Sized() && Rows() == Reported(old(Rows()), revents)
    {
      hide Zip, Reported;
      ghost var rows := Rows();
      ZipAt(pollfd[..n], socket[..n]);
      ReportedAt(rows, revents);
      for i := 0 to n
        invariant forall k :: 0 <= k < i ==> pollfd[k] == old(pollfd[k]).(revents := revents[k])
        invariant forall k :: i <= k < pollfd.Length ==> pollfd[k] == old(pollfd[k])
      {
        pollfd[i] := pollfd[i].(revents := revents[i]);
      }
      ZipIs(pollfd[..n], socket[..n], Reported(rows, revents));
    }

    /** A listener with a connection: server_accept(). */
    method TurnListener(i: nat, env: Env, t: nat, ghost ready: multiset<Conn>, ghost done: seq<Conn>)
      returns (accepted: seq<Conn>)
      requires Sized() && Sound(Rows(), max) && Kernel(env) && i < n && pollfd[i].revents && socket[i].isListener
      requires Progress(ready, Rows(), i, done)
      modifies this`n, this`nmax, this`socket, this`pollfd, socket, pollfd
      ensures Sized() && (fresh(socket) || socket == old(socket)) && (fresh(pollfd) || pollfd == old(pollfd))
      ensures Sound(Rows(), max) && Progress(ready, Rows(), i + 1, done)
      ensures |Gather(Rows()[i + 1..], BusyRow)| < |Gather(old(Rows())[i..], BusyRow)|
      ensures Clients(Rows()) == Clients(old(Rows())) + multiset(accepted)
      ensures max != 0 && old(n) <= max ==> n <= max
      ensures Follows(Hear(ConnOf(old(Rows())[i]), accepted), env, t)
      ensures forall all, heard :: Hearing(all, old(Rows()), i, heard, max) ==>
                Hearing(all, Rows(), i + 1, heard + [ConnOf(old(Rows())[i])], max)
    {
      hide Zip, Gather, Progress, Sound, Fds, Added, Named, Cleared, Hearing;
      ghost var rows := Rows();
      RowAt(i);
      ClearedSound(rows, i, max);
      ClearedClients(rows, i);
      if max != 0 { RoomToAccept(rows, i, max); }
      var listener := socket[i].listener;
      ClearEvents(i);
      var fd := env.accept(t, Fds(Rows()));
      var data := env.newData(t);
      ghost var fds := Fds(Rows());
      var r := AddFd(fd, listener, data, env.okSocket(t), env.okPollFd(t));
      PassIdle(ready, rows, i, done);
      forall all, heard | Hearing(all, rows, i, heard, max)
        ensures Hearing(all, Rows(), i + 1, heard + [ConnOf(rows[i])], max)
      {
        if r == 0 { HearAccept(all, rows, i, heard, max, fd, data, listener); } else { HearIdle(all, rows, i, heard, max); }
      }
      if r == 0 {
        accepted := [Conn(fd, data)];
        PassAccept(ready, rows, i, done, fd, max, data, listener);
        AddedSound(Cleared(rows, i), fd, max);
        NamedSound(Cleared(rows, i), fd, max, data, listener);
      } else {
        accepted := [];
      }
      assert Yields(env, t, fds, accepted);
    }

    lemma {:induction false} RowsSize()
      requires Sized()
      ensures |Rows()| == n
    {
      ZipAt(pollfd[..n], socket[..n]);
    }

    lemma {:induction false} RowAt(i: nat)
      requires Sized() && i < n
      ensures |Rows()| == n && Rows()[i] == Row(pollfd[i], socket[i])
    {
      ZipAt(pollfd[..n], socket[..n]);
    }

    /** A client with input: on_ready(), and the close that follows a result that is not positive. */
    method TurnClient(i: nat, env: Env, t: nat, ghost ready: multiset<Conn>, ghost done: seq<Conn>)
      returns (conn: Conn, closes: bool)
      requires Sized() && Sound(Rows(), max) && i < n && pollfd[i].revents && !socket[i].isListener
      requires Progress(ready, Rows(), i, done)
      modifies this`n, this`nmax, this`socket, this`pollfd, socket, pollfd
      ensures Sized() && (fresh(socket) || socket == old(socket)) && (fresh(pollfd) || pollfd == old(pollfd))
      ensures conn == ConnOf(old(Rows())[i]) && (closes <==> env.onReady(t) <= 0)
      ensures n == (if closes then old(n) - 1 else old(n))
      ensures var i' := if closes then i else i + 1;
              Sound(Rows(), max) && Progress(ready, Rows(), i', done + [conn]) &&
              |Gather(Rows()[i'..], BusyRow)| < |Gather(old(Rows())[i..], BusyRow)|
      ensures closes ==> Clients(old(Rows())) == Clients(Rows()) + multiset{conn}
      ensures !closes ==> Clients(old(Rows())) == Clients(Rows())
      ensures forall all, heard :: Hearing(all, old(Rows()), i, heard, max) ==>
                Hearing(all, Rows(), if closes then i else i + 1, heard, max)
    {
      hide Zip, Gather, Progress, Sound, Closed, Cleared, Hearing;
      ghost var rows := Rows();
      RowAt(i);
      ClearedSound(rows, i, max);
      ClearedClients(rows, i);
      conn := Conn(pollfd[i].fd, socket[i].data);
      ClearEvents(i);
      var len := env.onReady(t);
      closes := len <= 0;
      if closes {
        CloseDelete(i, env.okSocket(t), env.okPollFd(t));
        PassClose(ready, rows, i, done, max);
        ClosedSound(Cleared(rows, i), i, max);
      } else {
        PassKeep(ready, rows, i, done);
      }
      forall all, heard | Hearing(all, rows, i, heard, max)
        ensures Hearing(all, Rows(), if closes then i else i + 1, heard, max)
      {
        if closes { HearClose(all, rows, i, heard, max); } else { HearKeep(all, rows, i, heard, max); }
      }
    }

    /** The limit on sockets is out of reach in this pass. */
    ghost predicate Roomy()
      requires Sized()
      reads this, socket, pollfd
    {
      max == 0 || n + |Callers(Rows())| < max
    }

    /** One row of the pass: quiet, a listener or a client. */
    method TurnRow(i: nat, env: Env, p: Sofar, ghost g: Goal) returns (i': nat, p': Sofar)
      requires Sized() && Kernel(env) && i < n && Passing(g, Rows(), i, max, env, p)
      modifies this`n, this`nmax, this`socket, this`pollfd, socket, pollfd
      ensures Sized() && (fresh(socket) || socket == old(socket)) && (fresh(pollfd) || pollfd == old(pollfd))
      ensures Passing(g, Rows(), i', max, env, p') && i' <= |Rows()| == n
      ensures |Gather(Rows()[i'..], BusyRow)| < |Gather(old(Rows())[i..], BusyRow)| ||
              (|Gather(Rows()[i'..], BusyRow)| == |Gather(old(Rows())[i..], BusyRow)| && n - i' < old(n) - i)
      ensures max != 0 && old(n) <= max ==> n <= max
    {
      hide Zip, Sound, Progress, Gather, Balanced, Clients, Ready, Logged, Heard, Hearing, Follows, Callers;
      RowAt(i);
      ghost var now, row := Clients(Rows()), Rows()[i];
      var Sofar(done, closed, accepted, log) := p;
      if !pollfd[i].revents {
        PassQuiet(g.ready, Rows(), i, done);
        if g.roomy { HearQuiet(g.all, Rows(), i, Heard(log), max); }
        i', p' := i + 1, p;
      } else if socket[i].isListener {
        var listener := Conn(pollfd[i].fd, socket[i].data);
        var more := TurnListener(i, env, |log|, g.ready, done);
        BalanceAccept(g.was, accepted, closed, now, more, Clients(Rows()));
        LogHear(log, env, done, closed, accepted, listener, more);
        i', p' := i + 1, Sofar(done, closed, accepted + more, log + [Hear(listener, more)]);
      } else {
        var conn, closes := TurnClient(i, env, |log|, g.ready, done);
        LogDispatch(log, env, done, closed, accepted, conn);
        var log' := log + [Dispatch(conn, env.onReady(|log|))];
        if closes {
          BalanceClose(g.was, accepted, closed, now, conn, Clients(Rows()));
          i', p' := i, Sofar(done + [conn], closed + [conn], accepted, log');
        } else {
          i', p' := i + 1, Sofar(done + [conn], closed, accepted, log');
        }
      }
      RowsSize();
      ProgressIn(g.ready, Rows(), i', p'.done);
    }

    /** The loop of server_poll(). */
    method Pass(env: Env) returns (p: Sofar)
      requires Sized() && Sound(Rows(), max) && Kernel(env)
      modifies this`n, this`nmax, this`socket, this`pollfd, socket, pollfd
      ensures Valid() && (fresh(socket) || socket == old(socket)) && (fresh(pollfd) || pollfd == old(pollfd))
      ensures multiset(p.done) == Ready(old(Rows()))
      ensures Balanced(Clients(old(Rows())), p.accepted, p.closed, Clients(Rows()))
      ensures max != 0 && old(n) <= max ==> n <= max
      ensures Logged(p.log, env, p.done, p.closed, p.accepted)
      ensures old(Roomy()) ==> multiset(Heard(p.log)) == Callers(old(Rows()))
    {
      hide Zip, Sound, Progress, Gather, Balanced, Clients, Ready, Logged, Heard, Hearing, Callers;
      ghost var g := Goal(Clients(Rows()), Ready(Rows()), Callers(Rows()), Roomy());
      p := Sofar([], [], [], []);
      BalanceStart(g.was);
      PassStart(Rows());
      RowsSize();
      LogStart(env);
      if g.roomy { HearStart(Rows(), max); }
      var i: nat := 0;
      while i < n
        invariant Sized() && (fresh(socket) || socket == old(socket)) && (fresh(pollfd) || pollfd == old(pollfd))
        invariant i <= |Rows()| == n && Passing(g, Rows(), i, max, env, p)
        invariant max != 0 && old(n) <= max ==> n <= max
        decreases |Gather(Rows()[i..], BusyRow)|, n - i
      {
        i, p := TurnRow(i, env, p, g);
      }
      PassEnd(g.ready, Rows(), i, p.done);
      if g.roomy { HearEnd(g.all, Rows(), Heard(p.log), max); }
    }

    /** server_poll(): ret and revents are what poll() returns and reports. Every client that is ready is
        handed to on_ready() once, with its own data, whatever is closed and accepted on the way, and is closed
        exactly if that returns 0 or less; every listener that is ready is heard once, if the limit is out of
        reach. */
    method Poll(ret: int, revents: seq<bool>, env: Env)
      returns (r: int, p: Sofar)
      requires Valid() && Kernel(env) && |revents| == n
      requires forall k :: 0 <= k < n && revents[k] ==> Rows()[k].pfd.events
      modifies this`n, this`nmax, this`socket, this`pollfd, socket, pollfd
      ensures Valid() && (fresh(socket) || socket == old(socket)) && (fresh(pollfd) || pollfd == old(pollfd))
      ensures old(n) > 0 && ret > 0 ==> multiset(p.done) == Ready(Reported(old(Rows()), revents))
      ensures old(n) == 0 || ret <= 0 ==> p == Sofar([], [], [], []) && Rows() == old(Rows())
      ensures Balanced(Clients(old(Rows())), p.accepted, p.closed, Clients(Rows()))
      ensures max != 0 && old(n) <= max ==> n <= max
      ensures Logged(p.log, env, p.done, p.closed, p.accepted)
      ensures var calling := Callers(Reported(old(Rows()), revents));
              old(n) > 0 && ret > 0 && (max == 0 || old(n) + |calling| < max) ==> multiset(Heard(p.log)) == calling
    {
      hide Zip, Sound, Reported, Gather, Balanced, Clients, Ready, Callers, Logged, Heard;
      BalanceStart(Clients(Rows()));
      LogStart(env);
      p := Sofar([], [], [], []);
      r := ret;
      if n == 0 {
        r := 0;
      } else if ret > 0 {
        RowsSize();
        ReportedSound(Rows(), revents, max);
        Report(revents);
        p := Pass(env);
      }
    }
  }

  function Reported(rows: seq<Row>, revents: seq<bool>): (r: seq<Row>)
    requires |rows| == |revents|
    ensures |r| == |rows| && forall k :: 0 <= k < |r| ==> r[k] == rows[k].(pfd := rows[k].pfd.(revents := revents[k]))
  {
    if rows == [] then []
    else [rows[0].(pfd := rows[0].pfd.(revents := revents[0]))] + Reported(rows[1..], revents[1..])
  }

  lemma {:induction false} ReportedAt(rows: seq<Row>, revents: seq<bool>)
    requires |rows| == |revents|
    ensures var r := Reported(rows, revents);
            |r| == |rows| && forall k :: 0 <= k < |r| ==> r[k] == rows[k].(pfd := rows[k].pfd.(revents := revents[k]))
  {
  }

  lemma {:induction false} ReportedSound(rows: seq<Row>, revents: seq<bool>, max: nat)
    requires |rows| == |revents| && Sound(rows, max)
    requires forall k :: 0 <= k < |rows| && revents[k] ==> rows[k].pfd.events
    ensures Sound(Reported(rows, revents), max) && Clients(Reported(rows, revents)) == Clients(rows)
  {
    hide Reported, Gather;
    ReportedAt(rows, revents);
    GatherSame(Reported(rows, revents), rows, ClientRow);
  }

  lemma {:induction false} PassStart(rows: seq<Row>)
    ensures Progress(Ready(rows), rows, 0, [])
  {
    assert rows[0..] == rows;
  }

  lemma {:induction false} ProgressIn(ready: multiset<Conn>, rows: seq<Row>, i: nat, done: seq<Conn>)
    requires Progress(ready, rows, i, done)
    ensures i <= |rows|
  {
  }

  /** No client comes from nowhere or gets lost: those there were and those accepted are those closed
      and those there are. */
  ghost predicate Balanced(was: multiset<Conn>, accepted: seq<Conn>, closed: seq<Conn>, now: multiset<Conn>)
  {
    was + multiset(accepted) == multiset(closed) + now
  }

  lemma {:induction false} BalanceStart(was: multiset<Conn>)
    ensures Balanced(was, [], [], was)
  {
  }

  lemma {:induction false} BalanceAccept(was: multiset<Conn>, accepted: seq<Conn>, closed: seq<Conn>, now: multiset<Conn>,
                                         more: seq<Conn>, now': multiset<Conn>)
    requires Balanced(was, accepted, closed, now) && now' == now + multiset(more)
    ensures Balanced(was, accepted + more, closed, now')
  {
    var a, m := multiset(accepted), multiset(more);
    assert multiset(accepted + more) == a + m;
    assert was + (a + m) == (was + a) + m && multiset(closed) + (now + m) == (multiset(closed) + now) + m;
  }

  lemma {:induction false} BalanceClose(was: multiset<Conn>, accepted: seq<Conn>, closed: seq<Conn>, now: multiset<Conn>,
                                        conn: Conn, now': multiset<Conn>)
    requires Balanced(was, accepted, closed, now) && now == now' + multiset{conn}
    ensures Balanced(was, accepted, closed + [conn], now')
  {
  }

  lemma {:induction false} PassEnd(ready: multiset<Conn>, rows: seq<Row>, i: nat, done: seq<Conn>)
    requires Progress(ready, rows, i, done) && i == |rows|
    ensures multiset(done) == ready && Quiet(rows)
  {
    assert rows[i..] == [] && rows[..i] == rows;
  }

  lemma {:induction false} FirstFd(rows: seq<Row>, k: nat, max: nat)
    requires Sound(rows, max) && k < |rows|
    ensures forall j :: 0 <= j < |rows| && rows[j].pfd.fd == rows[k].pfd.fd ==> j == k
  {
  }

  /** Adding a listener keeps the gate right exactly if it does not reach the limit. */
  lemma {:induction false} ListenerSound(rows: seq<Row>, fd: int, max: nat, listener: nat)
    requires Sound(rows, max) && Quiet(rows) && Sound(Added(rows, fd, max), max)
    ensures |Added(rows, fd, max)| == |rows| + 1
    ensures var r := Added(rows, fd, max)[|rows| := Row(PollFd(fd, true, false), Sock(0, listener, true))];
            Sound(r, max) && Quiet(r) <==> max == 0 || |r| < max
  {
    hide Toggle;
    ToggleAt(rows + [Row(PollFd(fd, true, false), Sock(0, 0, false))], false);
    var r := Added(rows, fd, max)[|rows| := Row(PollFd(fd, true, false), Sock(0, listener, true))];
    var b := Added(rows, fd, max);
    assert b[|rows|].pfd == PollFd(fd, true, false);
    assert forall k :: 0 <= k < |r| ==> r[k].pfd == b[k].pfd;
    assert DistinctFds(r) && Asked(r) && Quiet(r);
    assert r[|rows|].sock.isListener && r[|rows|].pfd.events;
    if max == 0 || |r| < max {
      assert Gated(r, max);
    }
  }

  /** A limit of one socket: the listener that is added stays enabled, and the table is full. */
  lemma {:induction false} ListenerAtLimit()
    ensures var r := Added([], 3, 1)[0 := Row(PollFd(3, true, false), Sock(0, 7, true))];
            Sound([], 1) && |r| == 1 && r[0].pfd.events && !Gated(r, 1)
  {
    var r := Added([], 3, 1)[0 := Row(PollFd(3, true, false), Sock(0, 7, true))];
    assert r[0].sock.isListener && r[0].pfd.events && |r| == 1;
  }
}
