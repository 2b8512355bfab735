/** The scan that store_file_open() runs over an image of unknown origin, and what survives it. */
module Recovery {
  import opened Bytes
  import opened Layout
  import opened Entries
  import opened Packing
  import opened Blocks

  /** a - b in uint32. */
  function Sub32(a: nat, b: nat): (r: nat)
    requires a < U32 && b < U32
    ensures r < U32
    ensures b <= a ==> r == a - b
    ensures b > a ==> r == a + U32 - b
  {
    if b <= a then a - b else a + U32 - b
  }

  /** The "too big" test of the scan, as written: the subtraction is uint32. */
  predicate TooBig(offset: nat, filesz: nat, recSz: nat)
    requires filesz < U32 && recSz < U32
  {
    offset > Sub32(filesz, recSz)
  }

  /** The test says whether the record sticks out of the file exactly for records that are not
      larger than the whole file. */
  lemma {:induction false} TooBigExact(offset: nat, filesz: nat, recSz: nat)
    requires offset < filesz < U32 && recSz < U32
    ensures (TooBig(offset, filesz, recSz) <==> offset + recSz > filesz) <==> recSz <= filesz
  {
  }

  /** A data record of the largest size passes the test in a file of one page. */
  lemma {:induction false} TooBigExample()
    ensures InfoSize(0xffff) == 65544 && !TooBig(0, 4096, InfoSize(0xffff))
  {
    hide Up8;
    Up8IsRoundUp(65537);
  }

  /** A gap has size 0 exactly when its size field is 8 to 15 below 2^32. It then passes the test and
      leaves the scan where it was, so that such an image is never opened. */
  lemma {:induction false} ScanStuck(img: seq<byte>, o: nat)
    requires |img| < U32 && o + 8 <= |img| && IsGap(img, o)
    ensures U32 - 15 <= GapField(img, o) <= U32 - 8 <==> RecSize(img, o) == 0
    ensures RecSize(img, o) == 0 ==> !TooBig(o, |img|, RecSize(img, o)) && o + RecSize(img, o) == o
  {
    var f := GapField(img, o);
    AlignedIsMod(U32 - 8);
    assert Aligned(U32 - 8);
    if f + 7 < U32 {
      if Aligned(f) {
        Up8Fixed(f);
        if f > U32 - 16 { AlignedDiff(U32 - 8, if f <= U32 - 8 then f else 0); }
      } else {
        AlignedDiff(U32 - 8, if Up8(f) <= U32 - 8 then Up8(f) else 0);
      }
    }
  }

  /** Every record that the scan meets advances it. One that is larger than the file is a gap whose end
      does not wrap around into the file. */
  ghost predicate Scannable(img: seq<byte>, o: nat)
    decreases |img| - o
  {
    o <= |img| &&
    (o == |img| ||
     (o + 8 <= |img| && 8 <= RecSize(img, o) &&
      (RecSize(img, o) > |img| ==> Overhang(img, o) || o + RecSize(img, o) > U32 + |img|) &&
      (RecSize(img, o) > |img| ==> IsGap(img, o)) &&
      (o + RecSize(img, o) > |img| || Scannable(img, o + RecSize(img, o)))))
  }

  /** A gap at o, larger than the file, that the test does not catch: the scan goes on behind the file. */
  ghost predicate Overhang(img: seq<byte>, o: nat)
  {
    o + 8 <= |img| && IsGap(img, o) && |img| < RecSize(img, o) && o + RecSize(img, o) < U32
  }

  /** Where a scan is when the whole records end at o. */
  ghost predicate ScanStops(img: seq<byte>, o: nat, offset: nat)
  {
    offset == o || (Overhang(img, o) && offset == o + RecSize(img, o))
  }

  /** The test on a gap that is larger than the file. */
  lemma {:induction false} TooBigOver(offset: nat, filesz: nat, recSz: nat)
    requires offset < filesz < recSz < U32
    ensures TooBig(offset, filesz, recSz) <==> offset + recSz > U32 + filesz
  {
  }

  /** Where the records that lie wholly in the file end. */
  ghost function ScanEnd(img: seq<byte>, o: nat): (r: nat)
    requires Scannable(img, o)
    ensures o <= r <= |img|
    decreases |img| - o
  {
    if o == |img| || o + RecSize(img, o) > |img| then o else ScanEnd(img, o + RecSize(img, o))
  }

  /** The scan keeps whole records, and no longer prefix of the image is made of whole records. */
  lemma {:induction false} ScanLongest(img: seq<byte>, o: nat)
    requires Scannable(img, o)
    ensures Tiled(img, o, ScanEnd(img, o))
    ensures forall q: nat :: ScanEnd(img, o) < q <= |img| ==> !Tiled(img, o, q)
    decreases |img| - o
  {
    if o < |img| && o + RecSize(img, o) <= |img| {
      ScanLongest(img, o + RecSize(img, o));
    }
  }

  /** An image that is tiled to its end scans to its end. */
  lemma {:induction false} TiledScans(img: seq<byte>, o: nat)
    requires Tiled(img, o, |img|)
    ensures Scannable(img, o) && ScanEnd(img, o) == |img|
    decreases |img| - o
  {
    if o < |img| {
      TiledStep(img, o, |img|);
      TiledScans(img, o + RecSize(img, o));
    }
  }

  lemma {:induction false} NulGap(img: seq<byte>, o: nat)
    requires o + 8 <= |img| && forall k :: 0 <= k < |img| ==> img[k] == 0
    ensures IsGap(img, o) && RecSize(img, o) == 8
  {
    assert SzAt(img, o) == 0 && GapField(img, o) == 0;
  }

  /** A stretch of NUL bytes is a run of gaps of 8 bytes. */
  lemma {:induction false} NulTiled(img: seq<byte>, o: nat)
    requires o <= |img| && Aligned(|img| - o) && forall k :: 0 <= k < |img| ==> img[k] == 0
    ensures Tiled(img, o, |img|) && Data(img, o, |img|) == []
    decreases |img| - o
  {
    hide RecSize, IsGap;
    if o < |img| {
      NulGap(img, o);
      NulTiled(img, o + 8);
    }
  }

  lemma {:induction false} EmptyMapped(pagesize: nat)
    requires 0 < pagesize < U32
    ensures var img := Mapped([], pagesize); |img| == pagesize && forall k :: 0 <= k < |img| ==> img[k] == 0
  {
    RoundUpNothing(pagesize);
  }

  lemma {:induction false} RoundUpNothing(page: nat)
    requires 0 < page < U32
    ensures RoundUp32(0, page) < page
  {
  }

  /** An empty file is mapped as a page of NUL bytes, and scans as no records. */
  lemma {:induction false} EmptyScan(pagesize: nat)
    requires 0 < pagesize < U32 && Aligned(pagesize)
    ensures var img := Mapped([], pagesize);
            |img| == pagesize && Scannable(img, 0) && ScanEnd(img, 0) == |img| &&
            Tiled(img, 0, |img|) && DataKvs(img, 0, |img|) == []
  {
    hide Aligned, Tiled, Data, DataKvs, Mapped, RecSize;
    var img := Mapped([], pagesize);
    EmptyMapped(pagesize);
    NulTiled(img, 0);
    TiledScans(img, 0);
    DataKvsAt(img, 0, |img|);
  }

  // ---- duplicates ---------------------------------------------------------------------------

  /** es keeps records of all, and one for every key of all. */
  ghost predicate Survives(es: seq<seq<byte>>, all: seq<seq<byte>>)
  {
    (forall e :: e in es ==> e in all) &&
    (forall k :: k in Keys(all) ==> k in Keys(es))
  }

  /** Strictly ascending up to i. */
  ghost predicate StrictTo(es: seq<seq<byte>>, i: nat)
  {
    i <= |es| && forall a, b :: 0 <= a < b < i ==> Less(KeyOf(es[a]), KeyOf(es[b]))
  }

  lemma {:induction false} StrictExtends(es: seq<seq<byte>>, i: nat)
    requires ByKey(es) && 0 < i < |es| && StrictTo(es, i) && KeyOf(es[i - 1]) != KeyOf(es[i])
    ensures StrictTo(es, i + 1)
  {
    LessTotal(KeyOf(es[i - 1]), KeyOf(es[i]));
    forall a | 0 <= a < i ensures Less(KeyOf(es[a]), KeyOf(es[i])) {
      if a < i - 1 { LessTransitive(KeyOf(es[a]), KeyOf(es[i - 1]), KeyOf(es[i])); }
    }
  }

  lemma {:induction false} DropDuplicate(es: seq<seq<byte>>, i: nat, all: seq<seq<byte>>)
    requires ByKey(es) && 0 < i < |es| && StrictTo(es, i) && KeyOf(es[i - 1]) == KeyOf(es[i])
    requires Survives(es, all)
    ensures ByKey(es[..i] + es[i + 1..]) && StrictTo(es[..i] + es[i + 1..], i)
    ensures Survives(es[..i] + es[i + 1..], all)
  {
    hide Less, KeyOf;
    var r := es[..i] + es[i + 1..];
    assert forall j :: 0 <= j < |r| ==> r[j] == es[if j < i then j else j + 1];
    forall k | k in Keys(all) ensures k in Keys(r) {
      var j :| 0 <= j < |es| && Keys(es)[j] == k;
      var j' := if j < i then j else j - 1;
      assert Keys(r)[j'] == k;
    }
    forall e | e in r ensures e in all {
      var j :| 0 <= j < |r| && r[j] == e;
      assert e in es;
    }
  }

  lemma {:induction false} SurvivesPermute(a: seq<seq<byte>>, b: seq<seq<byte>>)
    requires multiset(a) == multiset(b)
    ensures Survives(a, b)
  {
    hide KeyOf;
    forall e | e in a ensures e in b {
      assert e in multiset(a);
    }
    forall k | k in Keys(b) ensures k in Keys(a) {
      var j :| 0 <= j < |b| && Keys(b)[j] == k;
      assert b[j] in multiset(b);
      assert b[j] in multiset(a);
      var i :| 0 <= i < |a| && a[i] == b[j];
      assert Keys(a)[i] == k;
    }
  }

  /** Survivors in strict key order are sorted entries. */
  lemma {:induction false} SortedFromStrict(es: seq<seq<byte>>, all: seq<seq<byte>>)
    requires StrictTo(es, |es|) && Survives(es, all)
    requires forall j :: 0 <= j < |all| ==> IsKeyValue(all[j])
    ensures Sorted(es)
  {
    forall j | 0 <= j < |es| ensures IsKeyValue(es[j]) {
      assert es[j] in es;
    }
  }

  /** filesz as store_file_open() computes it, and the bytes it maps: the file cut or padded with
      NULs to whole pages. */
  function MapSize(size: nat, pagesize: nat): (r: nat)
    requires 0 < pagesize < U32
    ensures Pages(r, pagesize) && 0 < r < U32
  {
    var up := RoundUp32(size, pagesize);
    if up > pagesize then up else
      assert pagesize % pagesize == 0 by { MultipleMod(1, pagesize); }
      pagesize
  }

  function Mapped(image: seq<byte>, pagesize: nat): (r: seq<byte>)
    requires 0 < pagesize < U32
    ensures |r| == MapSize(|image|, pagesize)
    ensures forall k :: 0 <= k < |r| ==> r[k] == if k < |image| then image[k] else 0
  {
    seq(MapSize(|image|, pagesize), k requires k >= 0 => if k < |image| then image[k] else 0)
  }

  /** A file of whole pages is mapped as it is. */
  lemma {:induction false} MappedWhole(image: seq<byte>, pagesize: nat)
    requires 0 < pagesize < U32 && 0 < |image| < U32 && Pages(|image|, pagesize) && Pages(U32, pagesize)
    ensures Mapped(image, pagesize) == image
  {
    PagesBelow(|image|, U32, pagesize);
    PagesBelow(0, |image|, pagesize);
    var up := RoundUp32(|image|, pagesize);
    assert |image| <= up < |image| + pagesize;
    if |image| < up { PagesBelow(|image|, up, pagesize); }
  }

  /** Two multiples of a page are a page apart. */
  lemma {:induction false} PagesBelow(a: nat, b: nat, page: nat)
    requires page > 0 && Pages(a, page) && Pages(b, page) && a < b
    ensures a + page <= b
  {
    var p, q := a / page, b / page;
    assert a == p * page && b == q * page;
    if q <= p { MulMonotone(q, p, page); }
    MulStep(p, q, page);
  }

  /** One record of the scan. */
  lemma {:induction false} ScanOne(img: seq<byte>, o: nat)
    requires Scannable(img, o) && o < |img| && o + RecSize(img, o) <= |img| && Tiled(img, 0, o)
    ensures RecSize(img, o) >= 8 && Scannable(img, o + RecSize(img, o))
    ensures ScanEnd(img, o + RecSize(img, o)) == ScanEnd(img, o)
    ensures Tiled(img, 0, o + RecSize(img, o))
    ensures Data(img, 0, o + RecSize(img, o)) == Data(img, 0, o) + (if IsGap(img, o) then [] else [o])
  {
    var n := o + RecSize(img, o);
    TiledNil(img, n);
    assert Tiled(img, o, n) && Data(img, o, n) == if IsGap(img, o) then [] else [o];
    hide Tiled, Data;
    TiledJoin(img, 0, o, n);
  }

  lemma {:induction false} DedupeStart(all: seq<seq<byte>>)
    ensures Survives(all, all) && StrictTo(all, if 1 <= |all| then 1 else |all|)
  {
  }

  /** Equal neighbours never occur among strictly ascending keys. */
  lemma {:induction false} NoDuplicates(es: seq<seq<byte>>, i: nat)
    requires 0 < i < |es| && KeyOf(es[i - 1]) == KeyOf(es[i])
    ensures !Sorted(es)
  {
    LessIrreflexive(KeyOf(es[i]));
  }

  lemma {:induction false} SurvivesTrans(a: seq<seq<byte>>, b: seq<seq<byte>>, c: seq<seq<byte>>)
    requires Survives(a, b) && Survives(b, c)
    ensures Survives(a, c)
  {
  }

  lemma {:induction false} PermuteIn(a: seq<seq<byte>>, all: seq<seq<byte>>)
    requires multiset(a) == multiset(all) && forall kv :: kv in all ==> IsKeyValue(kv)
    ensures forall j :: 0 <= j < |a| ==> IsKeyValue(a[j])
  {
    forall j | 0 <= j < |a| ensures IsKeyValue(a[j]) {
      MultisetIn(a, all, a[j]);
    }
  }

  /** The index lists the records of the file, in another order. */
  lemma {:induction false} LaidKvs(img: seq<byte>, space: nat, offs: seq<nat>)
    requires Laid(img, space, offs)
    ensures multiset(Kvs(img, offs)) == multiset(DataKvs(img, 0, space))
  {
    KvsPermute(img, offs, Data(img, 0, space));
    DataKvsAt(img, 0, space);
  }

  lemma {:induction false} DataKvsSizes(img: seq<byte>, lo: nat, hi: nat)
    requires Tiled(img, lo, hi)
    ensures forall kv :: kv in DataKvs(img, lo, hi) ==> |kv| < 0x10000
  {
    DataKvsAt(img, lo, hi);
    DataBounds(img, lo, hi);
    var d := Data(img, lo, hi);
    hide Tiled, Data, DataKvs;
    forall kv | kv in Kvs(img, d) ensures |kv| < 0x10000 {
      var j :| 0 <= j < |d| && Kvs(img, d)[j] == kv;
      assert Inside(img, lo, d[j], hi);
    }
  }

  /** The image an intact store leaves: it scans to its end, and its records are the entries. */
  lemma {:induction false} ReopenScan(img: seq<byte>, space: nat, offs: seq<nat>)
    requires Laid(img, space, offs) && Sorted(Kvs(img, offs))
    ensures Scannable(img, 0) && ScanEnd(img, 0) == |img| && Tiled(img, 0, |img|)
    ensures multiset(DataKvs(img, 0, |img|)) == multiset(Kvs(img, offs))
    ensures forall kv :: kv in DataKvs(img, 0, |img|) ==> 0 in kv
  {
    LaidKvs(img, space, offs);
    if space < |img| {
      TileOneGap(img, space, |img| - space);
      DataKvsAt(img, space, |img|);
      DataKvsJoin(img, 0, space, |img|);
    }
    TiledScans(img, 0);
    hide Tiled, Data, DataKvs, Kvs;
    forall kv | kv in DataKvs(img, 0, |img|) ensures 0 in kv {
      MultisetIn(DataKvs(img, 0, |img|), Kvs(img, offs), kv);
    }
  }

  lemma {:induction false} AgreeTrans(a: seq<byte>, b: seq<byte>, c: seq<byte>, lo: nat, hi: nat)
    requires Agree(a, b, lo, hi) && Agree(b, c, lo, hi)
    ensures Agree(a, c, lo, hi)
  {
  }
}
