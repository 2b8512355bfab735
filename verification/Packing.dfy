/** store_repack(): sliding every data record down over the gaps, and sorting the index. */
module Packing {
  import opened Bytes
  import opened Layout
  import opened Blocks
  import opened Entries

  /** The keyvalues of a tiled stretch, in file order. */
  ghost function DataKvs(img: seq<byte>, lo: nat, hi: nat): (r: seq<seq<byte>>)
    requires Tiled(img, lo, hi)
    decreases hi - lo
  {
    if lo == hi then []
    else
      TiledStep(img, lo, hi);
      (if IsGap(img, lo) then [] else [Kv(img, lo)]) + DataKvs(img, lo + RecSize(img, lo), hi)
  }

  /** The bytes that records with these keyvalues occupy when nothing lies between them. */
  ghost function Total(kvs: seq<seq<byte>>): (r: nat)
  {
    if kvs == [] then 0 else Total(kvs[..|kvs| - 1]) + InfoSize(|kvs[|kvs| - 1]|)
  }

  lemma {:induction false} DataKvsStep(img: seq<byte>, lo: nat, hi: nat)
    requires Tiled(img, lo, hi) && lo < hi
    ensures lo + 8 <= hi && RecSize(img, lo) >= 8 && lo + RecSize(img, lo) <= hi
    ensures Tiled(img, lo + RecSize(img, lo), hi)
    ensures !IsGap(img, lo) ==> InfoAt(img, lo) && DataKvs(img, lo, hi) == [Kv(img, lo)] + DataKvs(img, lo + RecSize(img, lo), hi)
    ensures IsGap(img, lo) ==> DataKvs(img, lo, hi) == DataKvs(img, lo + RecSize(img, lo), hi)
  {
    TiledStep(img, lo, hi);
  }

  lemma {:induction false} DataKvsAt(img: seq<byte>, lo: nat, hi: nat)
    requires Tiled(img, lo, hi)
    ensures DataKvs(img, lo, hi) == Kvs(img, Data(img, lo, hi))
    decreases hi - lo
  {
    if lo < hi {
      hide Tiled, Data, DataKvs, Kvs, RecSize, InfoAt, SzAt;
      DataKvsStep(img, lo, hi);
      TiledStep(img, lo, hi);
      var next := lo + RecSize(img, lo);
      var d := Data(img, next, hi);
      DataKvsAt(img, next, hi);
      if IsGap(img, lo) {
        DropFirst(d);
      } else {
        KvsJoin(img, [lo], d);
        KvsOne(img, lo);
      }
    }
  }

  lemma {:induction false} DropFirst<T>(a: seq<T>)
    ensures [] + a == a
  {
  }

  lemma {:induction false} KvsJoin(img: seq<byte>, a: seq<nat>, b: seq<nat>)
    ensures Kvs(img, a + b) == Kvs(img, a) + Kvs(img, b)
  {
  }

  lemma {:induction false} DataKvsFrame(a: seq<byte>, b: seq<byte>, lo: nat, hi: nat)
    requires Tiled(a, lo, hi) && Agree(a, b, lo, hi)
    ensures Tiled(b, lo, hi) && DataKvs(b, lo, hi) == DataKvs(a, lo, hi)
  {
    TiledFrame(a, b, lo, hi);
    DataKvsAt(a, lo, hi);
    DataKvsAt(b, lo, hi);
    DataBounds(a, lo, hi);
    var d := Data(a, lo, hi);
    forall j | 0 <= j < |d| ensures Kvs(a, d)[j] == Kvs(b, d)[j] {
      assert Inside(a, lo, d[j], hi);
      KvFrame(a, b, d[j]);
    }
  }

  lemma {:induction false} DataKvsJoin(img: seq<byte>, lo: nat, mid: nat, hi: nat)
    requires Tiled(img, lo, mid) && Tiled(img, mid, hi)
    ensures Tiled(img, lo, hi) && DataKvs(img, lo, hi) == DataKvs(img, lo, mid) + DataKvs(img, mid, hi)
  {
    TiledJoin(img, lo, mid, hi);
    DataKvsAt(img, lo, mid);
    DataKvsAt(img, mid, hi);
    DataKvsAt(img, lo, hi);
    KvsJoin(img, Data(img, lo, mid), Data(img, mid, hi));
  }

  /** How far store_repack() has got: records of was[..r) sit packed in img[..w), and the bytes
      from r on have not been touched. */
  ghost predicate Packed(was: seq<byte>, img: seq<byte>, r: nat, w: nat, space: nat)
  {
    |img| == |was| && w <= r <= space <= |was| && Aligned(w) &&
    Tiled(was, 0, r) && Tiled(was, r, space) && Agree(was, img, r, |was|) &&
    Tiled(img, 0, w) && DataKvs(img, 0, w) == DataKvs(was, 0, r)
  }

  lemma {:induction false} PackedStart(img: seq<byte>, space: nat)
    requires Tiled(img, 0, space)
    ensures Packed(img, img, 0, 0, space)
    ensures Data(img, 0, 0) == [] && Total(DataKvs(img, 0, 0)) == 0
  {
  }

  lemma {:induction false} PackGap(was: seq<byte>, img: seq<byte>, r: nat, w: nat, space: nat)
    requires Packed(was, img, r, w, space) && r < space && IsGap(was, r)
    ensures r + RecSize(was, r) <= space && Packed(was, img, r + RecSize(was, r), w, space)
    ensures Data(was, 0, r + RecSize(was, r)) == Data(was, 0, r)
  {
    var next := r + RecSize(was, r);
    TiledStep(was, r, space);
    GapOnly(was, r);
    hide Tiled, Data, DataKvs, RecSize;
    TiledJoin(was, 0, r, next);
    DataKvsJoin(was, 0, r, next);
    assert Data(was, 0, r) + [] == Data(was, 0, r) && DataKvs(was, 0, r) + [] == DataKvs(was, 0, r);
  }

  lemma {:induction false} GapOnly(img: seq<byte>, o: nat)
    requires o + 8 <= |img| && IsGap(img, o) && RecSize(img, o) >= 8 && o + RecSize(img, o) <= |img|
    ensures var n := o + RecSize(img, o); Tiled(img, o, n) && Data(img, o, n) == [] && DataKvs(img, o, n) == []
  {
    TileOneGap(img, o, RecSize(img, o));
    DataKvsAt(img, o, o + RecSize(img, o));
  }

  /** A data record right after a tiled stretch extends it. */
  lemma {:induction false} ExtendInfo(img: seq<byte>, o: nat)
    requires Tiled(img, 0, o) && InfoAt(img, o)
    ensures Tiled(img, 0, End(img, o))
    ensures Data(img, 0, End(img, o)) == Data(img, 0, o) + [o]
    ensures DataKvs(img, 0, End(img, o)) == DataKvs(img, 0, o) + [Kv(img, o)]
  {
    var e := End(img, o);
    TileOneInfo(img, o);
    DataKvsAt(img, o, e);
    KvsOne(img, o);
    TiledJoin(img, 0, o, e);
    DataKvsJoin(img, 0, o, e);
  }

  /** The bytes a slide writes, and the ones it leaves alone. */
  lemma {:induction false} SlideBytes(was: seq<byte>, img: seq<byte>, r: nat, w: nat, e: nat, out: seq<byte>)
    requires |img| == |was| && w <= r <= e <= |was| && Agree(was, img, r, |was|)
    requires out == Splice(img, w, was[r..e])
    ensures |out| == |was| && Agree(img, out, 0, w) && Agree(was, out, e, |was|)
    ensures out[w..w + (e - r)] == was[r..e]
  {
  }

  /** A record that is already in place need not be moved. */
  lemma {:induction false} SlideSame(was: seq<byte>, img: seq<byte>, r: nat, w: nat, e: nat, out: seq<byte>)
    requires |img| == |was| && w <= r <= e <= |was| && Agree(was, img, r, |was|)
    requires (w == r && out == img) || out == Splice(img, w, img[r..e])
    ensures out == Splice(img, w, was[r..e])
  {
    assert img[r..e] == was[r..e];
  }

  /** Sliding the record at r down to w, even onto bytes of its own old place. */
  lemma {:induction false} PackInfo(was: seq<byte>, img: seq<byte>, r: nat, w: nat, space: nat, out: seq<byte>, e: nat, w': nat)
    requires Packed(was, img, r, w, space) && r < space && InfoAt(was, r) && e == End(was, r) <= space && w' == w + (e - r)
    requires out == Splice(img, w, was[r..e])
    ensures w' <= |out| && Packed(was, out, e, w', space)
    ensures Data(out, 0, w') == Data(img, 0, w) + [w]
    ensures DataKvs(out, 0, w') == DataKvs(img, 0, w) + [Kv(was, r)]
    ensures Data(was, 0, e) == Data(was, 0, r) + [r]
  {
    hide Tiled, Data, DataKvs, Splice, InfoAt, SzAt;
    SlideBytes(was, img, r, w, e, out);
    MovedRecord(was, out, r, w);
    PackMoved(was, img, r, w, space, out);
  }

  /** Reading past the data record at r. */
  lemma {:induction false} PackRead(was: seq<byte>, r: nat, space: nat)
    requires Tiled(was, 0, r) && Tiled(was, r, space) && r < space && InfoAt(was, r)
    ensures Tiled(was, 0, End(was, r)) && Tiled(was, End(was, r), space)
    ensures Data(was, 0, End(was, r)) == Data(was, 0, r) + [r]
    ensures DataKvs(was, 0, End(was, r)) == DataKvs(was, 0, r) + [Kv(was, r)]
  {
    TiledStep(was, r, space);
    ExtendInfo(was, r);
  }

  /** Writing a data record at w. */
  lemma {:induction false} PackWrite(img: seq<byte>, out: seq<byte>, w: nat)
    requires Tiled(img, 0, w) && Agree(img, out, 0, w) && Aligned(w) && InfoAt(out, w)
    ensures Tiled(out, 0, End(out, w)) && Aligned(End(out, w))
    ensures Data(out, 0, End(out, w)) == Data(img, 0, w) + [w]
    ensures DataKvs(out, 0, End(out, w)) == DataKvs(img, 0, w) + [Kv(out, w)]
  {
    AlignedSum(w, InfoSize(SzAt(out, w)));
    TiledFrame(img, out, 0, w);
    DataKvsFrame(img, out, 0, w);
    ExtendInfo(out, w);
  }

  lemma {:induction false} PackMoved(was: seq<byte>, img: seq<byte>, r: nat, w: nat, space: nat, out: seq<byte>)
    requires Packed(was, img, r, w, space) && r < space && InfoAt(was, r)
    requires |out| == |was| && Agree(img, out, 0, w) && Agree(was, out, End(was, r), |was|)
    requires InfoAt(out, w) && End(out, w) == w + (End(was, r) - r) && Kv(out, w) == Kv(was, r)
    ensures Packed(was, out, End(was, r), End(out, w), space)
    ensures Data(out, 0, End(out, w)) == Data(img, 0, w) + [w]
    ensures DataKvs(out, 0, End(out, w)) == DataKvs(img, 0, w) + [Kv(was, r)]
    ensures Data(was, 0, End(was, r)) == Data(was, 0, r) + [r]
  {
    hide Tiled, Data, DataKvs;
    PackRead(was, r, space);
    PackWrite(img, out, w);
  }

  lemma {:induction false} KvsOne(img: seq<byte>, o: nat)
    requires InfoAt(img, o)
    ensures Kvs(img, [o]) == [Kv(img, o)]
  {
  }

  lemma {:induction false} TotalAppend(kvs: seq<seq<byte>>, kv: seq<byte>)
    ensures Total(kvs + [kv]) == Total(kvs) + InfoSize(|kv|)
  {
    assert (kvs + [kv])[..|kvs|] == kvs;
  }

  lemma {:induction false} TotalSplit(a: seq<seq<byte>>, b: seq<seq<byte>>)
    ensures Total(a + b) == Total(a) + Total(b)
    decreases |b|
  {
    hide InfoSize;
    if b == [] {
      assert a + b == a;
    } else {
      var n := |b| - 1;
      TotalSplit(a, b[..n]);
      assert (a + b)[..|a + b| - 1] == a + b[..n];
    }
  }

  /** The order of the records does not matter. */
  lemma {:induction false} TotalPermute(a: seq<seq<byte>>, b: seq<seq<byte>>)
    requires multiset(a) == multiset(b)
    ensures Total(a) == Total(b)
  {
    hide InfoSize, Total;
    if a == [] {
      assert |multiset(b)| == |b|;
      assert b == [];
    } else {
      var x := a[0];
      MultisetIn(a, b, x);
      var k :| 0 <= k < |b| && b[k] == x;
      var rest := b[..k] + b[k + 1..];
      assert b == b[..k] + [x] + b[k + 1..] && a == [x] + a[1..];
      assert multiset(b) == multiset(rest) + multiset{x};
      MultisetCancel(multiset(a[1..]), multiset(rest), x);
      TotalPermute(a[1..], rest);
      TotalSplit([x], a[1..]);
      TotalSplit(b[..k], b[k + 1..]);
      TotalSplit(b[..k] + [x], b[k + 1..]);
      TotalSplit(b[..k], [x]);
    }
  }

  lemma {:induction false} MovedRecord(was: seq<byte>, out: seq<byte>, r: nat, w: nat)
    requires InfoAt(was, r) && w + (End(was, r) - r) <= |out|
    requires out[w..w + (End(was, r) - r)] == was[r..End(was, r)]
    ensures InfoAt(out, w) && End(out, w) == w + (End(was, r) - r) && Kv(out, w) == Kv(was, r)
  {
    var a, b := out[w..w + (End(was, r) - r)], was[r..End(was, r)];
    assert out[w] == a[0] && out[w + 1] == a[1] && was[r] == b[0] && was[r + 1] == b[1];
    var sz := SzAt(was, r);
    SliceSlice(out, w, w + (End(was, r) - r), 2, 2 + sz);
    SliceSlice(was, r, End(was, r), 2, 2 + sz);
  }

  lemma {:induction false} SliceSlice<T>(s: seq<T>, a: nat, b: nat, c: nat, d: nat)
    requires a <= b <= |s| && c <= d <= b - a
    ensures s[a..b][c..d] == s[a + c..a + d]
  {
    forall i | 0 <= i < d - c ensures s[a..b][c..d][i] == s[a + c..a + d][i] {
    }
  }

  // ---- the sorted index ---------------------------------------------------------------------

  /** Keys never descend: what qsort() with info_compar promises. */
  ghost predicate ByKey(es: seq<seq<byte>>)
  {
    forall i, j :: 0 <= i < j < |es| ==> !Less(KeyOf(es[j]), KeyOf(es[i]))
  }

  lemma {:induction false} KvsInsert(img: seq<byte>, offs: seq<nat>, p: nat, x: nat)
    requires p <= |offs|
    ensures Kvs(img, offs[..p] + [x] + offs[p..]) == Kvs(img, offs)[..p] + [KvOr(img, x)] + Kvs(img, offs)[p..]
  {
  }

  lemma {:induction false} ByKeyInsert(es: seq<seq<byte>>, p: nat, e: seq<byte>)
    requires ByKey(es) && p <= |es|
    requires forall j :: p <= j < |es| ==> Less(KeyOf(e), KeyOf(es[j]))
    requires p > 0 ==> !Less(KeyOf(e), KeyOf(es[p - 1]))
    ensures ByKey(es[..p] + [e] + es[p..])
  {
    hide Less, KeyOf;
    forall j | 0 <= j < p ensures !Less(KeyOf(e), KeyOf(es[j])) {
      if j < p - 1 && Less(KeyOf(e), KeyOf(es[j])) {
        NotLessTransitive(KeyOf(e), KeyOf(es[p - 1]), KeyOf(es[j]));
      }
    }
    forall j | p <= j < |es| ensures !Less(KeyOf(es[j]), KeyOf(e)) {
      LessAsymmetric(KeyOf(e), KeyOf(es[j]));
    }
    ByKeyBetween(es, p, e);
  }

  lemma {:induction false} ByKeyBetween(es: seq<seq<byte>>, p: nat, e: seq<byte>)
    requires ByKey(es) && p <= |es|
    requires forall j :: 0 <= j < p ==> !Less(KeyOf(e), KeyOf(es[j]))
    requires forall j :: p <= j < |es| ==> !Less(KeyOf(es[j]), KeyOf(e))
    ensures ByKey(es[..p] + [e] + es[p..])
  {
    hide Less, KeyOf;
    var r := es[..p] + [e] + es[p..];
    forall i, j | 0 <= i < j < |r| ensures !Less(KeyOf(r[j]), KeyOf(r[i])) {
      assert r[i] == if i < p then es[i] else if i == p then e else es[i - 1];
      assert r[j] == if j < p then es[j] else if j == p then e else es[j - 1];
    }
  }

  lemma {:induction false} NotLessTransitive(a: seq<byte>, b: seq<byte>, c: seq<byte>)
    requires !Less(a, b) && !Less(b, c)
    ensures !Less(a, c)
  {
    LessTotal(a, b);
    LessTotal(b, c);
    if a == b || b == c {
    } else if Less(a, c) {
      LessTransitive(b, a, c);
    }
  }

  /** Rearranging the offsets rearranges the keyvalues. */
  lemma {:induction false} KvsPermute(img: seq<byte>, a: seq<nat>, b: seq<nat>)
    requires multiset(a) == multiset(b)
    ensures multiset(Kvs(img, a)) == multiset(Kvs(img, b))
  {
    if a == [] {
      assert |multiset(b)| == |b|;
      assert b == [];
    } else {
      var x := a[0];
      MultisetIn(a, b, x);
      var k :| 0 <= k < |b| && b[k] == x;
      var rest := b[..k] + b[k + 1..];
      assert b == b[..k] + [x] + b[k + 1..];
      assert a == [x] + a[1..];
      assert multiset(b) == multiset(rest) + multiset{x};
      MultisetCancel(multiset(a[1..]), multiset(rest), x);
      KvsPermute(img, a[1..], rest);
      KvsJoin(img, [x], a[1..]);
      KvsJoin(img, b[..k], b[k + 1..]);
      KvsJoin(img, b[..k] + [x], b[k + 1..]);
      KvsJoin(img, b[..k], [x]);
    }
  }

  /** Sorting a rearrangement of distinct keys gives strictly ascending keys. */
  lemma {:induction false} StrictFromPermutation(es: seq<seq<byte>>, ref: seq<seq<byte>>)
    requires ByKey(es) && Sorted(ref) && multiset(es) == multiset(ref)
    ensures Sorted(es) && es == ref
  {
    forall i | 0 <= i < |es| ensures IsKeyValue(es[i]) {
      MultisetIn(es, ref, es[i]);
    }
    forall i, j | 0 <= i < j < |es| ensures Less(KeyOf(es[i]), KeyOf(es[j])) {
      LessTotal(KeyOf(es[i]), KeyOf(es[j]));
      if KeyOf(es[i]) == KeyOf(es[j]) {
        OncePerKey(es, ref, i, j);
      }
    }
    SortedUnique(es, ref);
  }

  lemma {:induction false} OncePerKey(es: seq<seq<byte>>, ref: seq<seq<byte>>, i: nat, j: nat)
    requires Sorted(ref) && multiset(es) == multiset(ref) && i < j < |es|
    ensures KeyOf(es[i]) != KeyOf(es[j])
  {
    if KeyOf(es[i]) == KeyOf(es[j]) {
      MultisetIn(es, ref, es[i]);
      MultisetIn(es, ref, es[j]);
      var p :| 0 <= p < |ref| && ref[p] == es[i];
      var q :| 0 <= q < |ref| && ref[q] == es[j];
      SortedDistinct(ref);
      assert Keys(ref)[p] == Keys(ref)[q];
      assert p == q;
      Twice(es, i, j);
      SortedOnce(ref, p);
    }
  }

  lemma {:induction false} SortedOnce(ref: seq<seq<byte>>, p: nat)
    requires Sorted(ref) && p < |ref|
    ensures multiset(ref)[ref[p]] == 1
  {
    SortedDistinct(ref);
    var a, b := ref[..p], ref[p + 1..];
    assert ref == a + [ref[p]] + b;
    forall k | 0 <= k < |a| ensures a[k] != ref[p] {
      assert a[k] == ref[k] && Keys(ref)[k] != Keys(ref)[p];
    }
    forall k | 0 <= k < |b| ensures b[k] != ref[p] {
      assert b[k] == ref[p + 1 + k] && Keys(ref)[p + 1 + k] != Keys(ref)[p];
    }
  }

  lemma {:induction false} KvsRemove(img: seq<byte>, offs: seq<nat>, i: nat)
    requires i < |offs|
    ensures Kvs(img, offs[..i] + offs[i + 1..]) == Kvs(img, offs)[..i] + Kvs(img, offs)[i + 1..]
  {
  }

  lemma {:induction false} KvsReplace(img: seq<byte>, offs: seq<nat>, i: nat, x: nat)
    requires i < |offs|
    ensures Kvs(img, offs[i := x])[..i] + Kvs(img, offs[i := x])[i + 1..] == Kvs(img, offs[..i] + offs[i + 1..])
  {
  }

  /** Two sequences that agree once slot i is taken out agree everywhere else. */
  lemma {:induction false} PickOthers<T>(a: seq<T>, i: nat, b: seq<T>)
    requires i < |a| == |b| && a[..i] + a[i + 1..] == b[..i] + b[i + 1..]
    ensures forall j :: 0 <= j < |a| && j != i ==> b[j] == a[j]
  {
    var ra, rb := a[..i] + a[i + 1..], b[..i] + b[i + 1..];
    forall j | 0 <= j < |a| && j != i ensures b[j] == a[j] {
      var k := if j < i then j else j - 1;
      assert ra[k] == a[j] && rb[k] == b[j];
    }
  }

  /** Taking slot i out and putting something back there leaves the other slots. */
  lemma {:induction false} PutOthers<T>(a: seq<T>, i: nat, b: seq<T>, x: T)
    requires i < |a| && b == (a[..i] + a[i + 1..])[..i] + [x] + (a[..i] + a[i + 1..])[i..]
    ensures |b| == |a| && forall j :: 0 <= j < |a| && j != i ==> b[j] == a[j]
  {
  }

  lemma {:induction false} GapKept(a: seq<byte>, b: seq<byte>, o: nat, n: nat)
    requires GapAt(a, o, n) && Agree(a, b, o, |a|) && |a| == |b|
    ensures GapAt(b, o, n)
  {
  }
}
