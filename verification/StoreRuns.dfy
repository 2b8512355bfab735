/** Whole runs of the store: puts, deletes, gets and reopenings in any order, with the system
    refusing to grow the file or the index at any point. */
module StoreRuns {
  import opened Bytes
  import opened Entries
  import opened FileStore
  import opened Layout

  datatype Op = PutOp(kv: seq<byte>) | DelOp(key: seq<byte>) | GetOp(key: seq<byte>) | ReopenOp
  datatype Result = Code(r: int) | Value(v: Option<seq<byte>>)

  /** Whether the system obliges during one operation. */
  datatype Luck = Luck(growOk: bool, indexOk: bool, trimOk: bool)

  /** The result that a finite map m allows for op; a put of something new may be refused. */
  ghost predicate Explains(m: Contents, op: Op, res: Result)
  {
    match op
    case PutOp(kv) =>
      res.Code? && res.r in {-1, 0, 1} && (res.r == 0 <==> KeyOf(kv) in m && m[KeyOf(kv)] == kv)
    case DelOp(key) => res == Code(if key in m then 1 else 0)
    case GetOp(key) => res == Value(if key in m then Some(m[key]) else None)
    case ReopenOp => res.Code?
  }

  /** The finite map after op gave res. A refused put forgets its key. */
  ghost function After(m: Contents, op: Op, res: Result): (r: Contents)
  {
    match op
    case PutOp(kv) => if res == Code(-1) then m - {KeyOf(kv)} else m[KeyOf(kv) := kv]
    case DelOp(key) => m - {key}
    case GetOp(_) => m
    case ReopenOp => m
  }

  ghost function AfterAll(m: Contents, ops: seq<Op>, out: seq<Result>): (r: Contents)
    requires |ops| == |out|
  {
    if ops == [] then m
    else
      var n := |ops| - 1;
      After(AfterAll(m, ops[..n], out[..n]), ops[n], out[n])
  }

  /** Every result of the run is what the finite map says at that moment. */
  ghost predicate Explained(m: Contents, ops: seq<Op>, out: seq<Result>)
  {
    |ops| == |out| &&
    forall i :: 0 <= i < |ops| ==> Explains(AfterAll(m, ops[..i], out[..i]), ops[i], out[i])
  }

  /** By how many bytes an operation can make the file grow. */
  function Cost(op: Op, page: nat): (r: nat)
  {
    if op.PutOp? then InfoSize(|op.kv|) + page else 0
  }

  function Spent(ops: seq<Op>, page: nat): (r: nat)
  {
    if ops == [] then 0 else Spent(ops[..|ops| - 1], page) + Cost(ops[|ops| - 1], page)
  }

  /** A file of this size stays a few pages below 2^32 throughout ops. */
  predicate Room(size: nat, page: nat, ops: seq<Op>)
  {
    size + Spent(ops, page) + 4 * page < U32
  }

  /** An operation for which the system obliges succeeds. */
  ghost predicate Granted(op: Op, luck: Luck, res: Result)
  {
    (op.PutOp? && luck.growOk && luck.indexOk ==> res != Code(-1)) &&
    (op.ReopenOp? && luck.indexOk ==> res == Code(0))
  }

  /** One operation. */
  method Do(s: Store, op: Op, luck: Luck) returns (t: Store, res: Result)
    requires s.Valid() && (op.PutOp? ==> IsKeyValue(op.kv))
    modifies s, s.file, s.cells
    ensures t == s || fresh(t)
    ensures (t.file == old(s.file) || fresh(t.file)) && (t.cells == old(s.cells) || fresh(t.cells))
    ensures t.Valid() && Explains(old(s.Map()), op, res) && t.Map() == After(old(s.Map()), op, res)
    ensures t.pagesize == s.pagesize
    ensures old(s.file.Length) + Cost(op, s.pagesize) + 4 * s.pagesize < U32 ==>
              t.file.Length <= old(s.file.Length) + Cost(op, s.pagesize) && Granted(op, luck, res)
  {
    hide Store.Valid, Store.Map, KeyOf, InfoSize;
    assert s.pagesize > 0 by { PagePositive(s); }
    t := s;
    match op {
      case PutOp(kv) =>
        ghost var before := s.Map();
        var r := s.Put(kv, luck.growOk, luck.indexOk, luck.trimOk);
        res := Code(r);
        PutSame(before, kv, r);
      case DelOp(key) =>
        var r := s.Del(Some(key), luck.trimOk);
        res := Code(r);
      case GetOp(key) =>
        var v := s.Get(key);
        res := Value(v);
      case ReopenOp =>
        var u := Store.Reopen(s, luck.indexOk);
        res := Code(if u == null then -1 else 0);
        if u != null { t := u; }
    }
  }

  lemma {:induction false} PagePositive(s: Store)
    requires s.Valid()
    ensures s.pagesize > 0
  {
  }

  /** The store refines a finite map over every run, across reopenings and refusals; and while the file
      is not about to reach 2^32 bytes, nothing is refused unless the system does not oblige. */
  method Run(s: Store, ops: seq<Op>, luck: seq<Luck>) returns (t: Store, out: seq<Result>)
    requires s.Valid() && |luck| == |ops|
    requires forall i :: 0 <= i < |ops| && ops[i].PutOp? ==> IsKeyValue(ops[i].kv)
    modifies s, s.file, s.cells
    ensures t.Valid() && |out| == |ops| && Explained(old(s.Map()), ops, out)
    ensures t.Map() == AfterAll(old(s.Map()), ops, out)
    ensures forall i :: 0 <= i < |ops| && Room(old(s.file.Length), s.pagesize, ops[..i + 1]) ==> Granted(ops[i], luck[i], out[i])
  {
    hide Store.Valid, Store.Map, KeyOf, Explained, IsKeyValue, Spent, Cost, Granted;
    t, out := s, [];
    ghost var m, size, page := s.Map(), s.file.Length, s.pagesize;
    RunStart(m);
    SpentNothing(page);
    for i := 0 to |ops|
      invariant t.Valid() && |out| == i
      invariant t == s || fresh(t)
      invariant (t.file == old(s.file) || fresh(t.file)) && (t.cells == old(s.cells) || fresh(t.cells))
      invariant t.Map() == AfterAll(m, ops[..i], out)
      invariant Explained(m, ops[..i], out)
      invariant t.pagesize == page && (Room(size, page, ops[..i]) ==> t.file.Length <= size + Spent(ops[..i], page))
      invariant forall k :: 0 <= k < i && Room(size, page, ops[..k + 1]) ==> Granted(ops[k], luck[k], out[k])
    {
      hide AfterAll, Explains, After;
      var res;
      SpentNext(ops, i, page);
      t, res := Do(t, ops[i], luck[i]);
      RunStep(m, ops, out, res, i);
      out := out + [res];
    }
    assert ops[..|ops|] == ops;
  }

  lemma {:induction false} SpentNothing(page: nat)
    ensures Spent([], page) == 0
  {
  }

  lemma {:induction false} SpentNext(ops: seq<Op>, i: nat, page: nat)
    requires i < |ops|
    ensures Spent(ops[..i + 1], page) == Spent(ops[..i], page) + Cost(ops[i], page)
  {
    assert ops[..i + 1][..i] == ops[..i];
  }

  lemma {:induction false} SpentPrefix(ops: seq<Op>, i: nat, page: nat)
    requires i <= |ops|
    ensures Spent(ops[..i], page) <= Spent(ops, page)
    decreases |ops| - i
  {
    if i < |ops| {
      SpentNext(ops, i, page);
      SpentPrefix(ops, i + 1, page);
    } else {
      assert ops[..i] == ops;
    }
  }

  lemma {:induction false} RunStart(m: Contents)
    ensures Explained(m, [], []) && AfterAll(m, [], []) == m
  {
  }

  lemma {:induction false} PutSame(m: Contents, kv: seq<byte>, r: int)
    requires r == 0 ==> KeyOf(kv) in m && m[KeyOf(kv)] == kv
    ensures r == 0 ==> m[KeyOf(kv) := kv] == m
  {
  }

  lemma {:induction false} RunStep(m: Contents, ops: seq<Op>, out: seq<Result>, res: Result, i: nat)
    requires i < |ops| && |out| == i && Explained(m, ops[..i], out)
    requires Explains(AfterAll(m, ops[..i], out), ops[i], res)
    ensures Explained(m, ops[..i + 1], out + [res])
    ensures AfterAll(m, ops[..i + 1], out + [res]) == After(AfterAll(m, ops[..i], out), ops[i], res)
  {
    var ops', out' := ops[..i + 1], out + [res];
    assert ops'[..i] == ops[..i] && out'[..i] == out;
    hide AfterAll, Explains;
    forall j | 0 <= j < |ops'| ensures Explains(AfterAll(m, ops'[..j], out'[..j]), ops'[j], out'[j]) {
      if j < i {
        assert ops'[..j] == ops[..i][..j] && out'[..j] == out[..j];
      }
    }
  }

  /** What the last operation on key before the end of the run left there: Some(kv) for a put that
      was not refused, None for a delete or a refusal, or else what m had at the start. */
  ghost function LastWritten(m: Contents, ops: seq<Op>, out: seq<Result>, key: seq<byte>): (r: Option<seq<byte>>)
    requires |ops| == |out|
  {
    if ops == [] then (if key in m then Some(m[key]) else None)
    else
      var n := |ops| - 1;
      if ops[n].PutOp? && KeyOf(ops[n].kv) == key then (if out[n] == Code(-1) then None else Some(ops[n].kv))
      else if ops[n] == DelOp(key) then None
      else LastWritten(m, ops[..n], out[..n], key)
  }

  /** Get returns exactly the last bytes put for that key, over every run. */
  lemma {:induction false} GetReturnsLastPut(m: Contents, ops: seq<Op>, out: seq<Result>, key: seq<byte>)
    requires |ops| == |out|
    ensures var now := AfterAll(m, ops, out);
            LastWritten(m, ops, out, key) == if key in now then Some(now[key]) else None
    ensures forall res :: Explains(AfterAll(m, ops, out), GetOp(key), res) ==> res == Value(LastWritten(m, ops, out, key))
  {
    if ops != [] {
      var n := |ops| - 1;
      GetReturnsLastPut(m, ops[..n], out[..n], key);
    }
  }

  // ---- runs in which the system obliges -------------------------------------------------------------

  /** What a finite map answers. */
  ghost function Answer(m: Contents, op: Op): (r: Result)
  {
    match op
    case PutOp(kv) => Code(if KeyOf(kv) in m && m[KeyOf(kv)] == kv then 0 else 1)
    case DelOp(key) => Code(if key in m then 1 else 0)
    case GetOp(key) => Value(if key in m then Some(m[key]) else None)
    case ReopenOp => Code(0)
  }

  ghost function Updated(m: Contents, op: Op): (r: Contents)
  {
    match op
    case PutOp(kv) => m[KeyOf(kv) := kv]
    case DelOp(key) => m - {key}
    case GetOp(_) => m
    case ReopenOp => m
  }

  ghost function UpdatedAll(m: Contents, ops: seq<Op>): (r: Contents)
  {
    if ops == [] then m else Updated(UpdatedAll(m, ops[..|ops| - 1]), ops[|ops| - 1])
  }

  /** All results are those of a finite map that knows no refusals. */
  ghost predicate Answered(m: Contents, ops: seq<Op>, out: seq<Result>)
  {
    |ops| == |out| && forall i :: 0 <= i < |ops| ==> out[i] == Answer(UpdatedAll(m, ops[..i]), ops[i])
  }

  lemma {:induction false} GrantedAnswer(m: Contents, op: Op, luck: Luck, res: Result)
    requires Explains(m, op, res) && Granted(op, luck, res) && luck.growOk && luck.indexOk
    ensures res == Answer(m, op) && After(m, op, res) == Updated(m, op)
  {
    hide KeyOf;
  }

  lemma {:induction false} ExplainedPrefix(m: Contents, ops: seq<Op>, out: seq<Result>, n: nat)
    requires Explained(m, ops, out) && n < |ops|
    ensures Explained(m, ops[..n], out[..n]) && Explains(AfterAll(m, ops[..n], out[..n]), ops[n], out[n])
  {
    hide Explains, AfterAll;
    forall i | 0 <= i < n ensures Explains(AfterAll(m, ops[..n][..i], out[..n][..i]), ops[..n][i], out[..n][i]) {
      assert ops[..n][..i] == ops[..i] && out[..n][..i] == out[..i];
    }
  }

  lemma {:induction false} AnsweredNext(m: Contents, ops: seq<Op>, out: seq<Result>, n: nat)
    requires n + 1 == |ops| == |out| && Answered(m, ops[..n], out[..n])
    requires out[n] == Answer(UpdatedAll(m, ops[..n]), ops[n])
    ensures Answered(m, ops, out)
  {
    hide Answer, UpdatedAll;
    forall i | 0 <= i < n ensures out[i] == Answer(UpdatedAll(m, ops[..i]), ops[i]) {
      assert ops[..n][..i] == ops[..i] && out[..n][i] == out[i];
    }
  }

  /** Without refusals the run is that of a plain finite map. */
  lemma {:induction false} GrantedRun(m: Contents, ops: seq<Op>, luck: seq<Luck>, out: seq<Result>)
    requires |out| == |ops| == |luck| && Explained(m, ops, out)
    requires forall i :: 0 <= i < |ops| ==> Granted(ops[i], luck[i], out[i]) && luck[i].growOk && luck[i].indexOk
    ensures Answered(m, ops, out) && AfterAll(m, ops, out) == UpdatedAll(m, ops)
    decreases |ops|
  {
    hide Explains, Explained, Granted, After, Updated, Answer;
    if ops == [] {
    } else {
      hide Answered;
      var n := |ops| - 1;
      ExplainedPrefix(m, ops, out, n);
      GrantedRun(m, ops[..n], luck[..n], out[..n]);
      GrantedAnswer(AfterAll(m, ops[..n], out[..n]), ops[n], luck[n], out[n]);
      AnsweredNext(m, ops, out, n);
    }
  }

  /** From an empty file, over every run in which the system obliges and that has room: every result is
      that of a finite map which starts empty. */
  method RunFromEmpty(pagesize: nat, ops: seq<Op>, luck: seq<Luck>) returns (t: Store, out: seq<Result>)
    requires 0 < pagesize < U32 && Aligned(pagesize) && Pages(U32, pagesize)
    requires |luck| == |ops| && forall i :: 0 <= i < |ops| ==> luck[i].growOk && luck[i].indexOk
    requires forall i :: 0 <= i < |ops| && ops[i].PutOp? ==> IsKeyValue(ops[i].kv)
    requires Room(pagesize, pagesize, ops)
    ensures t.Valid() && Answered(map[], ops, out) && t.Map() == UpdatedAll(map[], ops)
  {
    hide Store.Valid, Store.Map, KeyOf, IsKeyValue, Spent, Cost, Granted, Explained, Aligned, Pages;
    var s := Store.OpenEmpty(pagesize);
    t, out := Run(s, ops, luck);
    forall i | 0 <= i < |ops| ensures Granted(ops[i], luck[i], out[i]) {
      SpentPrefix(ops, i + 1, pagesize);
    }
    GrantedRun(map[], ops, luck, out);
  }
}
