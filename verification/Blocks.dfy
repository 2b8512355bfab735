/** What each branch of the allocator in daemon/store.c does to the byte image, and why the
    image stays tiled with the index naming exactly its data records. */
module Blocks {
  import opened Bytes
  import opened Layout

  /** [0, space) is tiled, and offs names its data records, each once. */
  ghost predicate Body(img: seq<byte>, space: nat, offs: seq<nat>)
  {
    |img| < U32 && Aligned(|img|) && space <= |img| && Aligned(space) &&
    Tiled(img, 0, space) && multiset(offs) == multiset(Data(img, 0, space))
  }

  /** [space, filesz) is empty or one sentinel gap. */
  ghost predicate Tail(img: seq<byte>, space: nat)
  {
    space < |img| ==> GapAt(img, space, |img| - space)
  }

  ghost predicate Laid(img: seq<byte>, space: nat, offs: seq<nat>)
  {
    Body(img, space, offs) && Tail(img, space)
  }

  /** Every record in offs has the same keyvalue in both images. */
  ghost predicate SameKvs(a: seq<byte>, b: seq<byte>, offs: seq<nat>)
  {
    forall x :: x in offs ==> InfoAt(a, x) && InfoAt(b, x) && Kv(b, x) == Kv(a, x)
  }

  /** rest is offs with one occurrence of x taken out. */
  ghost predicate Without(offs: seq<nat>, x: nat, rest: seq<nat>)
  {
    multiset(offs) == multiset(rest + [x])
  }

  /** What store_set_space(sp) leaves: everything below sp as it was, and a sentinel from sp on. */
  ghost predicate SpaceSet(img: seq<byte>, out: seq<byte>, sp: nat)
  {
    |out| == |img| && Agree(img, out, 0, sp) && Tail(out, sp)
  }

  lemma {:induction false} MultisetIn<T>(a: seq<T>, b: seq<T>, x: T)
    requires multiset(a) == multiset(b)
    ensures x in a <==> x in b
  {
    assert x in a <==> x in multiset(a);
    assert x in b <==> x in multiset(b);
  }

  lemma {:induction false} SameKvsEqual(a: seq<byte>, b: seq<byte>, offs: seq<nat>)
    requires SameKvs(a, b, offs)
    ensures Kvs(b, offs) == Kvs(a, offs)
  {
  }

  lemma {:induction false} SameKvsTrans(a: seq<byte>, b: seq<byte>, c: seq<byte>, offs: seq<nat>)
    requires SameKvs(a, b, offs) && SameKvs(b, c, offs)
    ensures SameKvs(a, c, offs)
  {
  }

  lemma {:induction false} SameLength<T>(a: seq<T>, b: seq<T>)
    requires multiset(a) == multiset(b)
    ensures |a| == |b|
  {
    assert |multiset(a)| == |a| && |multiset(b)| == |b|;
  }

  lemma {:induction false} MultisetOut<T>(offs: seq<T>, a: seq<T>, x: T, b: seq<T>, rest: seq<T>)
    requires multiset(rest + [x]) == multiset(offs) == multiset(a + [x] + b)
    ensures x in offs && multiset(rest) == multiset(a + b)
  {
    assert multiset(a + [x] + b) == multiset(a + b) + multiset{x};
    assert multiset(rest + [x]) == multiset(rest) + multiset{x};
    assert x in multiset(offs);
    MultisetCancel(multiset(rest), multiset(a + b), x);
  }

  lemma {:induction false} MultisetCancel<T>(a: multiset<T>, b: multiset<T>, x: T)
    requires a + multiset{x} == b + multiset{x}
    ensures a == b
  {
    assert a == (a + multiset{x}) - multiset{x};
    assert b == (b + multiset{x}) - multiset{x};
  }

  lemma {:induction false} WithoutIn(offs: seq<nat>, x: nat, rest: seq<nat>)
    requires Without(offs, x, rest)
    ensures x in offs
  {
    MultisetIn(offs, rest + [x], x);
  }

  /** Every index entry is a whole data record below space. */
  lemma {:induction false} BodyInfos(img: seq<byte>, space: nat, offs: seq<nat>)
    requires Body(img, space, offs)
    ensures space <= |img| && Aligned(|img|)
    ensures forall x :: x in offs ==> x in Data(img, 0, space) && Inside(img, 0, x, space) && Aligned(x)
  {
    DataBounds(img, 0, space);
    DataAligned(img, 0, space);
    forall x | x in offs ensures x in Data(img, 0, space) && Inside(img, 0, x, space) && Aligned(x) {
      MultisetIn(offs, Data(img, 0, space), x);
    }
  }

  lemma {:induction false} DataAligned(img: seq<byte>, lo: nat, hi: nat)
    requires Tiled(img, lo, hi) && Aligned(lo)
    ensures forall x :: x in Data(img, lo, hi) ==> Aligned(x)
    decreases hi - lo
  {
    if lo < hi {
      AlignedSum(lo, RecSize(img, lo));
      DataAligned(img, lo + RecSize(img, lo), hi);
    }
  }

  /** The bytes below space decide the body; this covers remapping to another size too. */
  lemma {:induction false} BodyFrame(a: seq<byte>, b: seq<byte>, space: nat, offs: seq<nat>)
    requires Body(a, space, offs) && Agree(a, b, 0, space) && |b| < U32 && Aligned(|b|)
    ensures Body(b, space, offs) && SameKvs(a, b, offs)
  {
    TiledFrame(a, b, 0, space);
    BodyInfos(a, space, offs);
    forall x | x in offs ensures InfoAt(a, x) && InfoAt(b, x) && Kv(b, x) == Kv(a, x) {
      KvFrame(a, b, x);
    }
  }

  /** store_file_alloc(): a record appended at space. */
  lemma {:induction false} AppendLaid(img: seq<byte>, space: nat, offs: seq<nat>, sz: nat, mid: seq<byte>, out: seq<byte>)
    requires Body(img, space, offs) && 0 < sz < 0x10000 && space + InfoSize(sz) <= |img|
    requires SpaceSet(img, mid, space + InfoSize(sz)) && SzPut(mid, out, space, sz)
    ensures InfoAt(out, space) && Laid(out, space + InfoSize(sz), offs + [space]) && SameKvs(img, out, offs)
  {
    hide Tiled, Data;
    var sp := space + InfoSize(sz);
    AlignedSum(space, InfoSize(sz));
    TailFrame(mid, out, sp);
    assert Agree(img, out, 0, space);
    BodyFrame(img, out, space, offs);
    TileOneInfo(out, space);
    TiledJoin(out, 0, space, sp);
  }

  lemma {:induction false} TailFrame(a: seq<byte>, b: seq<byte>, space: nat)
    requires Tail(a, space) && |a| == |b| && Agree(a, b, space, |a|)
    ensures Tail(b, space)
  {
  }

  /** A record at off together with the gaps after it up to q: how it sits in the image. */
  ghost predicate Span(img: seq<byte>, off: nat, q: nat, space: nat)
  {
    InfoAt(img, off) && End(img, off) <= q <= space && Aligned(q) &&
    Tiled(img, End(img, off), q) && Data(img, End(img, off), q) == [] && Tiled(img, q, space)
  }

  /** The span that stops at the record's own end. */
  lemma {:induction false} SpanOwn(img: seq<byte>, space: nat, offs: seq<nat>, off: nat)
    requires Body(img, space, offs) && off in offs
    ensures InfoAt(img, off) && Span(img, off, End(img, off), space)
  {
    hide Tiled, Data;
    BodyInfos(img, space, offs);
    TiledSplit(img, 0, off, space);
    AlignedSum(off, InfoSize(SzAt(img, off)));
    TiledNil(img, End(img, off));
  }

  /** The span that takes in one gap record more. */
  lemma {:induction false} SpanGap(img: seq<byte>, off: nat, q: nat, space: nat)
    requires Span(img, off, q, space) && q < space && IsGap(img, q)
    ensures RecSize(img, q) >= 8 && q + RecSize(img, q) <= space
    ensures Span(img, off, q + RecSize(img, q), space)
    ensures GapAt(img, q, RecSize(img, q))
  {
    hide Tiled, Data;
    TiledStep(img, q, space);
    var r := q + RecSize(img, q);
    AlignedSum(q, RecSize(img, q));
    TileOneGap(img, q, RecSize(img, q));
    TiledJoin(img, End(img, off), q, r);
  }

  lemma {:induction false} SpanData(img: seq<byte>, space: nat, offs: seq<nat>, off: nat, q: nat)
    requires Body(img, space, offs) && off in offs && Span(img, off, q, space)
    ensures Tiled(img, 0, off)
    ensures Data(img, 0, space) == Data(img, 0, off) + [off] + Data(img, q, space)
  {
    hide Tiled, Data;
    BodyInfos(img, space, offs);
    TiledSplit(img, 0, off, space);
    TiledJoin(img, End(img, off), q, space);
  }

  lemma {:induction false} SameKvsJoin(img: seq<byte>, out: seq<byte>, a: seq<nat>, b: seq<nat>, offs: seq<nat>)
    requires multiset(offs) == multiset(a + b)
    requires forall x :: x in a || x in b ==> InfoAt(img, x) && InfoAt(out, x) && Kv(out, x) == Kv(img, x)
    ensures SameKvs(img, out, offs)
  {
    forall x | x in offs ensures InfoAt(img, x) && InfoAt(out, x) && Kv(out, x) == Kv(img, x) {
      MultisetIn(offs, a + b, x);
    }
  }

  lemma {:induction false} DropEmpty<T>(a: seq<T>, d: seq<T>, b: seq<T>)
    requires d == []
    ensures a + d + b == a + b
  {
  }

  lemma {:induction false} VacateBody(img: seq<byte>, out: seq<byte>, off: nat, q: nat, space: nat, rest: seq<nat>)
    requires Tiled(img, 0, off) && Tiled(img, q, space) && Tiled(out, off, q) && Data(out, off, q) == []
    requires Agree(img, out, 0, off) && Agree(img, out, q, space)
    requires multiset(rest) == multiset(Data(img, 0, off) + Data(img, q, space))
    ensures Tiled(out, 0, space) && multiset(rest) == multiset(Data(out, 0, space)) && SameKvs(img, out, rest)
  {
    Retile(img, out, 0, off, q, space);
    var a, b := Data(img, 0, off), Data(img, q, space);
    DropEmpty(a, Data(out, off, q), b);
    SameKvsJoin(img, out, a, b, rest);
  }

  /** Rewriting the span of a record so that it holds no data takes exactly that record out. */
  lemma {:induction false} VacateLaid(img: seq<byte>, space: nat, offs: seq<nat>, off: nat, q: nat, out: seq<byte>, rest: seq<nat>)
    requires Laid(img, space, offs) && Span(img, off, q, space) && Without(offs, off, rest)
    requires |out| == |img| && Agree(img, out, 0, off) && Agree(img, out, q, |img|)
    requires Tiled(out, off, q) && Data(out, off, q) == []
    ensures Laid(out, space, rest) && SameKvs(img, out, rest)
  {
    WithoutIn(offs, off, rest);
    SpanData(img, space, offs, off, q);
    MultisetOut(offs, Data(img, 0, off), off, Data(img, q, space), rest);
    VacateBody(img, out, off, q, space, rest);
    TailFrame(img, out, space);
  }

  /** Turning the span of a record into one gap takes exactly that record out. */
  lemma {:induction false} GapSpanLaid(img: seq<byte>, space: nat, offs: seq<nat>, off: nat, q: nat, out: seq<byte>, rest: seq<nat>)
    requires Laid(img, space, offs) && Span(img, off, q, space) && Without(offs, off, rest)
    requires GapPut(img, out, off, q - off)
    ensures Laid(out, space, rest) && SameKvs(img, out, rest)
  {
    TileOneGap(out, off, q - off);
    VacateLaid(img, space, offs, off, q, out, rest);
  }

  /** Rewinding space over a record that only gaps follow takes exactly that record out. */
  lemma {:induction false} RewindLaid(img: seq<byte>, space: nat, offs: seq<nat>, off: nat, out: seq<byte>, rest: seq<nat>)
    requires Body(img, space, offs) && Span(img, off, space, space) && Without(offs, off, rest)
    requires SpaceSet(img, out, off)
    ensures Laid(out, off, rest) && SameKvs(img, out, rest)
  {
    WithoutIn(offs, off, rest);
    SpanData(img, space, offs, off, space);
    BodyInfos(img, space, offs);
    var a := Data(img, 0, off);
    MultisetOut(offs, a, off, Data(img, space, space), rest);
    assert a + Data(img, space, space) == a;
    BodyFrame(img, out, off, rest);
  }

  /** Rewriting the span of a record so that it holds one data record at the same offset. */
  lemma {:induction false} ResizeLaid(img: seq<byte>, space: nat, offs: seq<nat>, off: nat, q: nat, out: seq<byte>)
    requires Laid(img, space, offs) && off in offs && Span(img, off, q, space)
    requires |out| == |img| && Agree(img, out, 0, off) && Agree(img, out, q, |img|)
    requires Tiled(out, off, q) && Data(out, off, q) == [off]
    ensures Laid(out, space, offs)
    ensures forall x :: x in offs && x != off ==> InfoAt(img, x) && InfoAt(out, x) && Kv(out, x) == Kv(img, x)
  {
    SpanData(img, space, offs, off, q);
    Retile(img, out, 0, off, q, space);
    TailFrame(img, out, space);
    var a, b := Data(img, 0, off), Data(img, q, space);
    assert Data(out, 0, space) == a + [off] + b;
    forall x | x in offs && x != off ensures InfoAt(img, x) && InfoAt(out, x) && Kv(out, x) == Kv(img, x) {
      MultisetIn(offs, a + [off] + b, x);
    }
  }

  /** Shrinking the last record rewinds space to its new end. */
  lemma {:induction false} ShrinkTailLaid(img: seq<byte>, space: nat, offs: seq<nat>, off: nat, sz: nat, mid: seq<byte>, out: seq<byte>)
    requires Laid(img, space, offs) && off in offs && InfoAt(img, off) && End(img, off) == space
    requires 0 < sz < 0x10000 && off + InfoSize(sz) <= space
    requires SzPut(img, mid, off, sz) && SpaceSet(mid, out, off + InfoSize(sz))
    ensures InfoAt(out, off) && SzAt(out, off) == sz
    ensures Laid(out, off + InfoSize(sz), offs)
    ensures forall x :: x in offs && x != off ==> InfoAt(img, x) && InfoAt(out, x) && Kv(out, x) == Kv(img, x)
  {
    hide Tiled, Data;
    SpanOwn(img, space, offs, off);
    BodyInfos(img, space, offs);
    AlignedSum(off, InfoSize(sz));
    TileOneInfo(out, off);
    ShrinkTailBody(img, space, offs, out, off, off + InfoSize(sz));
  }

  lemma {:induction false} ShrinkTailBody(img: seq<byte>, space: nat, offs: seq<nat>, out: seq<byte>, off: nat, sp: nat)
    requires Body(img, space, offs) && off in offs && Span(img, off, space, space)
    requires |out| == |img| && Agree(img, out, 0, off) && off <= sp <= |img| && Aligned(sp)
    requires Tiled(out, off, sp) && Data(out, off, sp) == [off]
    ensures Body(out, sp, offs)
    ensures forall x :: x in offs && x != off ==> InfoAt(img, x) && InfoAt(out, x) && Kv(out, x) == Kv(img, x)
  {
    SpanData(img, space, offs, off, space);
    ShrinkTailData(img, out, off, sp);
    var a := Data(img, 0, off);
    assert Data(img, 0, space) == a + [off] + Data(img, space, space) == a + [off];
    forall x | x in offs && x != off ensures InfoAt(img, x) && InfoAt(out, x) && Kv(out, x) == Kv(img, x) {
      MultisetIn(offs, a + [off], x);
    }
  }

  lemma {:induction false} ShrinkTailData(img: seq<byte>, out: seq<byte>, off: nat, sp: nat)
    requires Tiled(img, 0, off) && Agree(img, out, 0, off) && off <= sp <= |img|
    requires Tiled(out, off, sp) && Data(out, off, sp) == [off]
    ensures Tiled(out, 0, sp) && Data(out, 0, sp) == Data(img, 0, off) + [off]
    ensures forall x :: x in Data(img, 0, off) ==> InfoAt(img, x) && InfoAt(out, x) && Kv(out, x) == Kv(img, x)
  {
    assert Tiled(img, sp, sp) && Data(img, sp, sp) == [];
    Retile(img, out, 0, off, sp, sp);
  }

  /** A data record of size sz at off, followed by a gap that runs to q. */
  lemma {:induction false} TileInfoGap(img: seq<byte>, off: nat, sz: nat, q: nat)
    requires InfoAt(img, off) && SzAt(img, off) == sz && off + InfoSize(sz) < q
    requires GapAt(img, off + InfoSize(sz), q - (off + InfoSize(sz)))
    ensures Tiled(img, off, q) && Data(img, off, q) == [off]
  {
    var m := off + InfoSize(sz);
    TileOneInfo(img, off);
    TileOneGap(img, m, q - m);
    TiledJoin(img, off, m, q);
  }

  /** Filling in the keyvalue of a record changes nothing else. */
  lemma {:induction false} FillLaid(img: seq<byte>, space: nat, offs: seq<nat>, off: nat, kv: seq<byte>, out: seq<byte>)
    requires Laid(img, space, offs) && off in offs && InfoAt(img, off) && SzAt(img, off) == |kv|
    requires out == Splice(img, off + 2, kv)
    ensures Laid(out, space, offs) && InfoAt(out, off) && Kv(out, off) == kv
    ensures forall x :: x in offs && x != off ==> InfoAt(img, x) && InfoAt(out, x) && Kv(out, x) == Kv(img, x)
  {
    SpanOwn(img, space, offs, off);
    assert SzAt(out, off) == SzAt(img, off);
    TileOneInfo(out, off);
    ResizeLaid(img, space, offs, off, End(img, off), out);
  }

  /** The index never names a record twice. */
  lemma {:induction false} IndexDistinct(img: seq<byte>, space: nat, offs: seq<nat>)
    requires Body(img, space, offs)
    ensures forall i, j :: 0 <= i < j < |offs| ==> offs[i] != offs[j]
  {
    DataBounds(img, 0, space);
    var d := Data(img, 0, space);
    hide Tiled, Data;
    forall i, j | 0 <= i < j < |offs| ensures offs[i] != offs[j] {
      AscendingOnce(d, offs[i]);
      Twice(offs, i, j);
    }
  }

  lemma {:induction false} Twice<T>(es: seq<T>, i: nat, j: nat)
    requires i < j < |es|
    ensures es[i] == es[j] ==> multiset(es)[es[i]] >= 2
  {
    assert es == es[..j] + [es[j]] + es[j + 1..];
    assert es[i] in es[..j];
  }

  lemma {:induction false} AscendingOnce(d: seq<nat>, x: nat)
    requires Ascending(d)
    ensures multiset(d)[x] <= 1
  {
    if x in d {
      var k :| 0 <= k < |d| && d[k] == x;
      var a, b := d[..k], d[k + 1..];
      assert d == a + [d[k]] + b;
      assert x !in a && x !in b;
    }
  }

  /** Only entry i may have changed. */
  lemma {:induction false} OthersKept(img: seq<byte>, out: seq<byte>, space: nat, offs: seq<nat>, i: nat)
    requires Body(img, space, offs) && i < |offs|
    requires forall x :: x in offs && x != offs[i] ==> InfoAt(img, x) && InfoAt(out, x) && Kv(out, x) == Kv(img, x)
    ensures forall j :: 0 <= j < |offs| && j != i ==> Kvs(out, offs)[j] == Kvs(img, offs)[j]
  {
    IndexDistinct(img, space, offs);
    hide Tiled, Data;
    forall j | 0 <= j < |offs| && j != i ensures Kvs(out, offs)[j] == Kvs(img, offs)[j] {
      assert offs[j] in offs && offs[j] != offs[i];
    }
  }

  /** Taking slot i out of the index. */
  lemma {:induction false} WithoutSlot(offs: seq<nat>, i: nat)
    requires i < |offs|
    ensures Without(offs, offs[i], offs[..i] + offs[i + 1..])
  {
    assert offs == offs[..i] + [offs[i]] + offs[i + 1..];
  }

  /** Putting a record into slot i of the index. */
  lemma {:induction false} WithSlot(offs: seq<nat>, i: nat, x: nat)
    requires i <= |offs|
    ensures multiset(offs[..i] + [x] + offs[i..]) == multiset(offs + [x])
  {
    assert offs == offs[..i] + offs[i..];
  }

  lemma {:induction false} LaidPermute(img: seq<byte>, space: nat, a: seq<nat>, b: seq<nat>)
    requires Laid(img, space, a) && multiset(a) == multiset(b)
    ensures Laid(img, space, b)
  {
  }

  lemma {:induction false} ReplaceSlot(offs: seq<nat>, i: nat, x: nat)
    requires i < |offs|
    ensures multiset(offs[i := x]) == multiset(offs[..i] + offs[i + 1..] + [x])
  {
    assert offs[i := x] == offs[..i] + [x] + offs[i + 1..];
  }
}
