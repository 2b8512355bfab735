/** The byte image of the store file (daemon/store.c): record headers, record sizes in
    uint32 arithmetic, and what it means for a stretch of the image to be tiled by records. */
module Layout {
  import opened Bytes

  const U32 := 0x1_0000_0000

  /** n is a whole number of pages. */
  predicate Pages(n: nat, page: nat)
    requires page > 0
  {
    n % page == 0
  }

  /** roundup(): the sum is uint32, and the mask clears it down to a multiple of align. */
  function RoundUp32(n: nat, align: nat): (r: nat)
    requires align > 0
    ensures Pages(r, align)
    ensures r < U32
    ensures n < U32 <= n + align - 1 && align <= U32 ==> r == 0
    ensures n + align - 1 < U32 ==> n <= r < n + align
  {
    var m := (n + align - 1) % U32;
    FloorFacts(m, align);
    if n + align - 1 < U32 then
      assert m == n + align - 1;
      m / align * align
    else
      assert n < U32 && align <= U32 ==> m == n + align - 1 - U32 && m / align * align == 0 by {
        if n < U32 && align <= U32 { FloorZero(n + align - 1 - U32, align); }
      }
      m / align * align
  }

  lemma {:induction false} FloorFacts(m: nat, a: nat)
    requires a > 0
    ensures 0 <= m / a * a <= m < m / a * a + a
    ensures m / a * a % a == 0
  {
    assert m == m / a * a + m % a;
    MultipleMod(m / a, a);
  }

  lemma {:induction false} FloorZero(m: nat, a: nat)
    requires m < a
    ensures m / a * a == 0
  {
    FloorFacts(m, a);
    assert m / a == 0;
  }

  lemma {:induction false} ModPlus(x: nat, a: nat)
    requires a > 0
    ensures (x + a) % a == x % a
  {
    var q, r := x / a, x % a;
    assert x + a == (q + 1) * a + r;
    DivUnique(x + a, a, q + 1, r);
  }

  lemma {:induction false} DivUnique(x: nat, a: nat, q: nat, r: nat)
    requires a > 0 && x == q * a + r && r < a
    ensures x / a == q && x % a == r
  {
    var q', r' := x / a, x % a;
    assert x == q' * a + r';
    if q' < q {
      MulStep(q', q, a);
      assert false;
    } else if q < q' {
      MulStep(q, q', a);
      assert false;
    }
  }

  lemma {:induction false} MulMonotone(p: nat, q: nat, a: nat)
    requires p <= q
    ensures p * a <= q * a
  {
    assert q * a == p * a + (q - p) * a;
  }

  lemma {:induction false} MulStep(p: nat, q: nat, a: nat)
    requires p < q
    ensures p * a + a <= q * a
  {
    assert q * a == (p + 1) * a + (q - p - 1) * a;
  }

  lemma {:induction false} MultipleMod(q: nat, a: nat)
    requires a > 0
    ensures q * a % a == 0
  {
    if q > 0 {
      MultipleMod(q - 1, a);
      assert q * a == (q - 1) * a + a;
      ModPlus((q - 1) * a, a);
    }
  }

  // ---- alignment to 8 -----------------------------------------------------------------------

  /** n is a multiple of INFO_ALIGN. */
  predicate Aligned(n: nat)
  {
    n == 0 || (n >= 8 && Aligned(n - 8))
  }

  /** roundup(n, INFO_ALIGN) where the sum does not wrap. */
  function Up8(n: nat): (r: nat)
    ensures n <= r < n + 8 && Aligned(r)
  {
    if n == 0 then 0 else if n <= 8 then 8 else 8 + Up8(n - 8)
  }

  lemma {:induction false} AlignedIsMod(n: nat)
    ensures Aligned(n) <==> n % 8 == 0
  {
    if n >= 8 { AlignedIsMod(n - 8); }
  }

  lemma {:induction false} Up8IsRoundUp(n: nat)
    ensures n + 7 < U32 ==> Up8(n) == RoundUp32(n, 8)
  {
    AlignedIsMod(Up8(n));
    if n + 7 < U32 {
      var r := RoundUp32(n, 8);
      assert r % 8 == 0 && n <= r < n + 8;
    }
  }

  lemma {:induction false} AlignedSum(a: nat, b: nat)
    requires Aligned(a) && Aligned(b)
    ensures Aligned(a + b)
  {
    if a > 0 {
      AlignedSum(a - 8, b);
    }
  }

  lemma {:induction false} AlignedDiff(a: nat, b: nat)
    requires Aligned(a) && Aligned(b) && b <= a
    ensures Aligned(a - b)
    ensures b < a ==> b + 8 <= a
  {
    if b > 0 {
      AlignedDiff(a - 8, b - 8);
    }
  }

  lemma {:induction false} Up8Fixed(n: nat)
    requires Aligned(n)
    ensures Up8(n) == n
  {
    AlignedDiff(Up8(n), n);
  }

  /** Whole pages are 8-aligned when a page is. */
  lemma {:induction false} PagesAligned(n: nat, page: nat)
    requires page > 0 && Pages(n, page) && Aligned(page)
    ensures Aligned(n)
  {
    assert n == n / page * page;
    TimesAligned(n / page, page);
  }

  lemma {:induction false} TimesAligned(q: nat, page: nat)
    requires Aligned(page)
    ensures Aligned(q * page)
  {
    if q > 0 {
      TimesAligned(q - 1, page);
      assert q * page == (q - 1) * page + page;
      AlignedSum((q - 1) * page, page);
    }
  }

  // ---- record headers ----------------------------------------------------------------------

  /** info.sz, the first two bytes of a record (little-endian host). */
  function SzAt(img: seq<byte>, o: nat): (r: nat)
    requires o + 2 <= |img|
    ensures r < 0x10000
  {
    img[o] as int + 256 * (img[o + 1] as int)
  }

  function U32Of(a: byte, b: byte, c: byte, d: byte): (r: nat)
    ensures r < U32
  {
    a as int + 0x100 * (b as int) + 0x1_0000 * (c as int) + 0x100_0000 * (d as int)
  }

  /** gap.size, bytes 4..7 of a gap record. */
  function GapField(img: seq<byte>, o: nat): (r: nat)
    requires o + 8 <= |img|
    ensures r < U32
  {
    U32Of(img[o + 4], img[o + 5], img[o + 6], img[o + 7])
  }

  /** info_size(): header plus payload, padded to 8. */
  function InfoSize(sz: nat): (r: nat)
    ensures 2 + sz <= r < 2 + sz + 8 && r >= 8 && Aligned(r)
  {
    Up8(2 + sz)
  }

  /** Size of a gap record given its .size field: roundup(field, 8) + 8, each sum in uint32. */
  function GapSize(field: nat): (r: nat)
    requires field < U32
    ensures Aligned(r) && r < U32
    ensures Aligned(field) && field + 8 < U32 ==> r == field + 8
  {
    if field + 7 >= U32 then 8
    else
      AlignedSum(Up8(field), 8);
      if Aligned(field) then Up8Fixed(field); if field + 8 < U32 then field + 8 else 0
      else if Up8(field) + 8 < U32 then Up8(field) + 8 else 0
  }

  /** GapSize is the uint32 expression of record_get_size(). */
  lemma {:induction false} GapSizeIsUint32(field: nat)
    requires field < U32
    ensures GapSize(field) == (RoundUp32(field, 8) + 8) % U32
  {
    Up8IsRoundUp(field);
    if field + 7 < U32 {
      if Aligned(field) { Up8Fixed(field); }
      AlignedIsMod(U32);
      assert Up8(field) < U32 by { assert RoundUp32(field, 8) < U32; }
      AlignedDiff(U32, Up8(field));
    }
  }

  predicate IsGap(img: seq<byte>, o: nat)
    requires o + 2 <= |img|
  {
    SzAt(img, o) == 0
  }

  /** record_get_size() */
  function RecSize(img: seq<byte>, o: nat): (r: nat)
    requires o + 8 <= |img|
    ensures Aligned(r) && r < U32
  {
    if IsGap(img, o) then GapSize(GapField(img, o)) else InfoSize(SzAt(img, o))
  }

  function SzBytes(sz: nat): (r: seq<byte>)
    requires sz < 0x10000
    ensures |r| == 2 && r[0] as int + 256 * (r[1] as int) == sz
  {
    [sz % 256, sz / 256]
  }

  /** The eight bytes that record_init_gap() writes. */
  function GapBytes(nbytes: nat): (r: seq<byte>)
    requires 8 <= nbytes < U32
    ensures |r| == 8 && r[0] == 0 && r[1] == 0
    ensures U32Of(r[4], r[5], r[6], r[7]) == nbytes - 8
  {
    var g := nbytes - 8;
    var g1 := g / 0x100;
    var g2 := g1 / 0x100;
    [0, 0, 0, 0, g % 0x100, g1 % 0x100, g2 % 0x100, g2 / 0x100]
  }

  /** The image with bs written over it at o. */
  function Splice(img: seq<byte>, o: nat, bs: seq<byte>): (r: seq<byte>)
    requires o + |bs| <= |img|
    ensures |r| == |img|
    ensures forall k :: 0 <= k < |img| ==> r[k] == if o <= k < o + |bs| then bs[k - o] else img[k]
  {
    img[..o] + bs + img[o + |bs|..]
  }

  /** Two images hold the same bytes on [lo, hi). */
  ghost predicate Agree(a: seq<byte>, b: seq<byte>, lo: nat, hi: nat)
  {
    hi <= |a| && hi <= |b| && forall k :: lo <= k < hi ==> a[k] == b[k]
  }

  /** A gap record of exactly n bytes at o. */
  ghost predicate GapAt(img: seq<byte>, o: nat, n: nat)
  {
    n >= 8 && Aligned(n) && o + n <= |img| && IsGap(img, o) && RecSize(img, o) == n
  }

  /** out is img with a gap record of n bytes initialised at o: only the header changes. */
  ghost predicate GapPut(img: seq<byte>, out: seq<byte>, o: nat, n: nat)
  {
    |out| == |img| && GapAt(out, o, n) && Agree(img, out, 0, o) && Agree(img, out, o + 8, |img|)
  }

  /** out is img with info.sz set to sz at o. */
  ghost predicate SzPut(img: seq<byte>, out: seq<byte>, o: nat, sz: nat)
  {
    |out| == |img| && o + 2 <= |img| && SzAt(out, o) == sz &&
    Agree(img, out, 0, o) && Agree(img, out, o + 2, |img|)
  }

  lemma {:induction false} GapWritten(img: seq<byte>, o: nat, n: nat)
    requires 8 <= n < U32 && Aligned(n) && o + n <= |img|
    ensures GapPut(img, Splice(img, o, GapBytes(n)), o, n)
  {
    HeaderWritten(img, o, n, GapBytes(n));
  }

  lemma {:induction false} HeaderWritten(img: seq<byte>, o: nat, n: nat, g: seq<byte>)
    requires 8 <= n < U32 && Aligned(n) && o + n <= |img|
    requires |g| == 8 && g[0] == 0 && g[1] == 0 && U32Of(g[4], g[5], g[6], g[7]) == n - 8
    ensures GapPut(img, Splice(img, o, g), o, n)
  {
    var r := Splice(img, o, g);
    assert r[o] == g[0] && r[o + 1] == g[1] && r[o + 4] == g[4] && r[o + 5] == g[5] && r[o + 6] == g[6] && r[o + 7] == g[7];
    assert GapField(r, o) == n - 8;
    AlignedDiff(n, 8);
  }

  lemma {:induction false} SzWritten(img: seq<byte>, o: nat, sz: nat)
    requires sz < 0x10000 && o + 2 <= |img|
    ensures SzPut(img, Splice(img, o, SzBytes(sz)), o, sz)
  {
  }

  // ---- tiling -------------------------------------------------------------------------------

  /** [lo, hi) is exactly covered by records laid end to end. */
  ghost predicate Tiled(img: seq<byte>, lo: nat, hi: nat)
    decreases hi - lo
  {
    lo <= hi <= |img| &&
    (lo == hi || (lo + 8 <= hi && RecSize(img, lo) >= 8 && Tiled(img, lo + RecSize(img, lo), hi)))
  }

  /** Offsets of the data records in a tiled stretch, in file order. */
  ghost function Data(img: seq<byte>, lo: nat, hi: nat): (r: seq<nat>)
    requires Tiled(img, lo, hi)
    decreases hi - lo
  {
    if lo == hi then []
    else (if IsGap(img, lo) then [] else [lo]) + Data(img, lo + RecSize(img, lo), hi)
  }

  /** A data record lies wholly in the image at o. */
  predicate InfoAt(img: seq<byte>, o: nat)
  {
    o + 8 <= |img| && !IsGap(img, o) && o + InfoSize(SzAt(img, o)) <= |img|
  }

  /** keyvalue[0..sz) of the data record at o. */
  function Kv(img: seq<byte>, o: nat): (r: seq<byte>)
    requires InfoAt(img, o)
    ensures 0 < |r| == SzAt(img, o)
  {
    img[o + 2..o + 2 + SzAt(img, o)]
  }

  function KvOr(img: seq<byte>, o: nat): (r: seq<byte>)
  {
    if InfoAt(img, o) then Kv(img, o) else []
  }

  /** The keyvalues of the records at the given offsets. */
  ghost function Kvs(img: seq<byte>, offs: seq<nat>): (r: seq<seq<byte>>)
    ensures |r| == |offs|
    ensures forall j :: 0 <= j < |offs| ==> r[j] == KvOr(img, offs[j])
  {
    seq(|offs|, j requires 0 <= j < |offs| => KvOr(img, offs[j]))
  }

  /** End of the record at o. */
  function End(img: seq<byte>, o: nat): (r: nat)
    requires InfoAt(img, o)
    ensures o + 8 <= r <= |img|
  {
    o + InfoSize(SzAt(img, o))
  }

  lemma {:induction false} HeaderSame(a: seq<byte>, b: seq<byte>, o: nat, hi: nat)
    requires Agree(a, b, o, hi) && o + 8 <= hi
    ensures RecSize(a, o) == RecSize(b, o) && IsGap(a, o) == IsGap(b, o) && SzAt(a, o) == SzAt(b, o)
  {
  }

  lemma {:induction false} TiledFrame(a: seq<byte>, b: seq<byte>, lo: nat, hi: nat)
    requires Tiled(a, lo, hi) && Agree(a, b, lo, hi)
    ensures Tiled(b, lo, hi) && Data(b, lo, hi) == Data(a, lo, hi)
    decreases hi - lo
  {
    hide RecSize, IsGap;
    if lo < hi {
      HeaderSame(a, b, lo, hi);
      TiledFrame(a, b, lo + RecSize(a, lo), hi);
    }
  }

  lemma {:induction false} TiledJoin(img: seq<byte>, lo: nat, mid: nat, hi: nat)
    requires Tiled(img, lo, mid) && Tiled(img, mid, hi)
    ensures Tiled(img, lo, hi)
    ensures Data(img, lo, hi) == Data(img, lo, mid) + Data(img, mid, hi)
    decreases mid - lo
  {
    if lo < mid {
      var next := lo + RecSize(img, lo);
      TiledJoin(img, next, mid, hi);
      var d := if IsGap(img, lo) then [] else [lo];
      assert Data(img, lo, mid) == d + Data(img, next, mid);
      assert Data(img, lo, hi) == d + Data(img, next, hi);
      Associates(d, Data(img, next, mid), Data(img, mid, hi));
    }
  }

  /** A data record that lies inside [lo, hi). */
  ghost predicate Inside(img: seq<byte>, lo: nat, x: nat, hi: nat)
  {
    lo <= x && InfoAt(img, x) && End(img, x) <= hi
  }

  ghost predicate Ascending(offs: seq<nat>)
  {
    forall i, j :: 0 <= i < j < |offs| ==> offs[i] < offs[j]
  }

  /** Every data record found by the walk lies inside the stretch, and the walk ascends. */
  lemma {:induction false} DataBounds(img: seq<byte>, lo: nat, hi: nat)
    requires Tiled(img, lo, hi)
    ensures forall x :: x in Data(img, lo, hi) ==> Inside(img, lo, x, hi)
    ensures Ascending(Data(img, lo, hi))
    decreases hi - lo
  {
    if lo < hi {
      TiledStep(img, lo, hi);
      hide Tiled, Data, RecSize, IsGap, InfoAt, End;
      var next := lo + RecSize(img, lo);
      DataBounds(img, next, hi);
      var d := Data(img, next, hi);
      forall x | x in d ensures Inside(img, lo, x, hi) && lo < x {
        assert Inside(img, next, x, hi);
      }
      if !IsGap(img, lo) {
        assert forall j :: 0 <= j < |d| ==> d[j] in d && lo < d[j];
      }
    }
  }

  lemma {:induction false} TiledStep(img: seq<byte>, lo: nat, hi: nat)
    requires Tiled(img, lo, hi) && lo < hi
    ensures lo + 8 <= hi && RecSize(img, lo) >= 8 && lo + RecSize(img, lo) <= hi
    ensures Tiled(img, lo + RecSize(img, lo), hi)
    ensures !IsGap(img, lo) ==> InfoAt(img, lo) && End(img, lo) == lo + RecSize(img, lo)
    ensures Data(img, lo, hi) == (if IsGap(img, lo) then [] else [lo]) + Data(img, lo + RecSize(img, lo), hi)
  {
  }

  /** The walk stops at every data record it finds. */
  lemma {:induction false} TiledAt(img: seq<byte>, lo: nat, o: nat, hi: nat)
    requires Tiled(img, lo, hi) && o in Data(img, lo, hi)
    ensures Tiled(img, lo, o) && Tiled(img, o, hi)
    decreases hi - lo
  {
    hide RecSize, IsGap;
    if o == lo {
      TiledNil(img, lo);
    } else {
      TiledStep(img, lo, hi);
      var next := lo + RecSize(img, lo);
      assert o in Data(img, next, hi);
      TiledAt(img, next, o, hi);
    }
  }

  /** A data record splits its stretch in two. */
  lemma {:induction false} TiledSplit(img: seq<byte>, lo: nat, o: nat, hi: nat)
    requires Tiled(img, lo, hi) && o in Data(img, lo, hi)
    ensures InfoAt(img, o) && lo <= o < End(img, o) <= hi
    ensures Tiled(img, lo, o) && Tiled(img, End(img, o), hi)
    ensures Data(img, lo, hi) == Data(img, lo, o) + [o] + Data(img, End(img, o), hi)
  {
    hide Tiled, Data, RecSize;
    DataBounds(img, lo, hi);
    assert Inside(img, lo, o, hi);
    TiledAt(img, lo, o, hi);
    TiledJoin(img, lo, o, hi);
    TiledStep(img, o, hi);
    Associates(Data(img, lo, o), [o], Data(img, End(img, o), hi));
  }

  lemma {:induction false} TiledRange(img: seq<byte>, lo: nat, hi: nat)
    requires Tiled(img, lo, hi)
    ensures lo <= hi <= |img|
  {
  }

  lemma {:induction false} TiledNil(img: seq<byte>, o: nat)
    requires o <= |img|
    ensures Tiled(img, o, o) && Data(img, o, o) == []
  {
  }

  lemma {:induction false} TileOneGap(img: seq<byte>, o: nat, n: nat)
    requires GapAt(img, o, n)
    ensures Tiled(img, o, o + n) && Data(img, o, o + n) == []
  {
    assert Tiled(img, o + n, o + n);
  }

  lemma {:induction false} TileOneInfo(img: seq<byte>, o: nat)
    requires InfoAt(img, o)
    ensures Tiled(img, o, End(img, o)) && Data(img, o, End(img, o)) == [o]
  {
    assert Tiled(img, End(img, o), End(img, o));
    assert Data(img, End(img, o), End(img, o)) == [];
  }

  lemma {:induction false} KvFrame(a: seq<byte>, b: seq<byte>, o: nat)
    requires InfoAt(a, o) && Agree(a, b, o, End(a, o))
    ensures InfoAt(b, o) && Kv(b, o) == Kv(a, o) && End(b, o) == End(a, o)
  {
  }

  /** Rewriting only [p, q) of a tiled stretch, to something tiled, keeps the stretch tiled,
      and every data record outside [p, q) keeps its bytes. */
  lemma {:induction false} Retile(a: seq<byte>, b: seq<byte>, lo: nat, p: nat, q: nat, hi: nat)
    requires Tiled(a, lo, p) && Tiled(a, q, hi) && Tiled(b, p, q)
    requires Agree(a, b, lo, p) && Agree(a, b, q, hi)
    ensures Tiled(b, lo, hi)
    ensures Data(b, lo, hi) == Data(a, lo, p) + Data(b, p, q) + Data(a, q, hi)
    ensures forall x :: x in Data(a, lo, p) || x in Data(a, q, hi) ==>
              InfoAt(a, x) && InfoAt(b, x) && Kv(b, x) == Kv(a, x)
  {
    TiledFrame(a, b, lo, p);
    TiledFrame(a, b, q, hi);
    TiledJoin(b, lo, p, q);
    TiledJoin(b, lo, q, hi);
    DataBounds(a, lo, p);
    DataBounds(a, q, hi);
    forall x | x in Data(a, lo, p) || x in Data(a, q, hi)
      ensures InfoAt(a, x) && InfoAt(b, x) && Kv(b, x) == Kv(a, x)
    {
      assert Inside(a, lo, x, p) || Inside(a, q, x, hi);
      KvFrame(a, b, x);
    }
  }
}
