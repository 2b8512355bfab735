/** The file-backed store of daemon/store.c. */
module FileStore {
  import opened Bytes
  import opened Layout
  import opened Blocks
  import opened Packing
  import opened Entries
  import opened Recovery

  /** The first n of max cells are the index. */
  ghost predicate Mirror(cells: seq<nat>, n: nat, max: nat, index: seq<nat>)
  {
    |cells| == max && n == |index| <= max && cells[..n] == index
  }

  /** The size of the data record at off. */
  ghost function Alloc(img: seq<byte>, off: nat): (r: nat)
  {
    if off + 2 <= |img| then InfoSize(SzAt(img, off)) else 0
  }

  /** The same with a gap that follows. */
  ghost function Stretch(img: seq<byte>, off: nat): (r: nat)
  {
    var after := off + Alloc(img, off);
    Alloc(img, off) + if after + 8 <= |img| && IsGap(img, after) then RecSize(img, after) else 0
  }

  /** A record at off that can grow or shrink to newSz bytes where it is. */
  ghost predicate Roomy(img: seq<byte>, space: nat, off: nat, newSz: nat)
  {
    InfoSize(newSz) <= Alloc(img, off) ||
    (off + Alloc(img, off) != space && InfoSize(newSz) <= Stretch(img, off))
  }

  class Store {
    /** File increment size. */
    const pagesize: nat
    /** The mapped backing file; its length is filesz. */
    var file: array<byte>
    /** Offset to the space at the end of the file. */
    var space: nat
    /** Offsets of the data records, sorted by key: the first n cells of a heap block of max cells. */
    var cells: array<nat>
    var n: nat
    var max: nat
    /** Those n cells. */
    ghost var index: seq<nat>

    ghost predicate Mirrored()
      reads this, cells
    {
      Mirror(cells[..], n, max, index)
    }

    /** A power-of-two page size, and a file of whole pages. */
    ghost predicate Paged()
      reads this, cells
    {
      Mirrored() && pagesize > 0 && Aligned(pagesize) && Pages(U32, pagesize) && pagesize < U32 &&
      0 < file.Length < U32 && Pages(file.Length, pagesize)
    }

    /** The keyvalues in index order. */
    ghost function Entries(): (r: seq<seq<byte>>)
      reads this, file
    {
      Kvs(file[..], index)
    }

    /** The finite map that the store implements: key to <key NUL value>. */
    ghost function Map(): (r: map<seq<byte>, seq<byte>>)
      reads this, file
    {
      ToMap(Entries())
    }

    /** What every public operation keeps: [0, space) tiled, one sentinel gap behind it, the index a
        strictly sorted bijection onto the data records, and room for it. */
    ghost predicate Valid()
      reads this, file, cells
    {
      Paged() && Laid(file[..], space, index) && |index| <= max && Sorted(Entries())
    }

    // ---- writing bytes ----------------------------------------------------------------------

    /** memcpy() into the file. */
    method Poke(o: nat, bs: seq<byte>)
      requires o + |bs| <= file.Length
      modifies file
      ensures file[..] == Splice(old(file[..]), o, bs)
    {
      for k := 0 to |bs|
        invariant forall j :: 0 <= j < file.Length ==>
                    file[j] == if o <= j < o + k then bs[j - o] else old(file[j])
      {
        file[o + k] := bs[k];
      }
    }

    /** memmove() of n bytes down from src to dst; the two ranges may overlap. */
    method SlideDown(dst: nat, src: nat, n: nat)
      requires dst <= src && src + n <= file.Length
      modifies file
      ensures file[..] == Splice(old(file[..]), dst, old(file[..])[src..src + n])
    {
      ghost var was := file[..];
      for k := 0 to n
        invariant forall j :: dst <= j < dst + k ==> file[j] == was[j + (src - dst)]
        invariant forall j :: 0 <= j < dst || dst + k <= j < file.Length ==> file[j] == was[j]
      {
        file[dst + k] := file[src + k];
      }
    }

    /** record_init_gap() */
    method InitGap(o: nat, nbytes: nat)
      requires 8 <= nbytes < U32 && Aligned(nbytes) && o + nbytes <= file.Length
      modifies file
      ensures GapPut(old(file[..]), file[..], o, nbytes)
    {
      Poke(o, GapBytes(nbytes));
      GapWritten(old(file[..]), o, nbytes);
    }

    /** info->sz = sz */
    method PutSz(o: nat, sz: nat)
      requires sz < 0x10000 && o + 2 <= file.Length
      modifies file
      ensures SzPut(old(file[..]), file[..], o, sz)
    {
      Poke(o, SzBytes(sz));
      SzWritten(old(file[..]), o, sz);
    }

    /** store_set_space() */
    method SetSpace(sp: nat)
      requires sp <= file.Length < U32 && Aligned(sp) && Aligned(file.Length)
      modifies this`space, file
      ensures space == sp && SpaceSet(old(file[..]), file[..], sp)
    {
      space := sp;
      if sp != file.Length {
        AlignedDiff(file.Length, sp);
        InitGap(sp, file.Length - sp);
      }
    }

    /** store_file_setsize(): remap the file at another size. ok says whether the system obliges;
        mapping no bytes never succeeds. */
    method SetSize(newSz: nat, ok: bool) returns (done: bool)
      requires newSz < U32
      modifies this`file
      ensures done == (ok && newSz != 0)
      ensures !done ==> file == old(file)
      ensures done ==> fresh(file) && file.Length == newSz
      ensures forall n: nat :: n <= file.Length && n <= old(file.Length) ==> Agree(old(file[..]), file[..], 0, n)
    {
      done := ok && newSz != 0;
      if done {
        var was := file;
        var now := new byte[newSz];
        for k := 0 to newSz
          invariant file == was == old(file) && was[..] == old(was[..])
          invariant forall j :: 0 <= j < k && j < was.Length ==> now[j] == was[j]
        {
          now[k] := if k < was.Length then was[k] else 0;
        }
        file := now;
      }
    }

    /** The file has grown from size was by no more than n bytes, as long as that is a few pages below
        2^32; nearer to it, a sum of store_file_trim() wraps and its trimming can add a page. */
    ghost predicate Grows(was: nat, n: nat)
      reads this
    {
      was + n + 4 * pagesize < U32 ==> file.Length <= was + n
    }

    /** The size store_file_trim() shrinks the file to, or None while the excess is small. */
    function TrimSize(): (r: Option<nat>)
      requires Paged() && space < file.Length
      reads this, cells
      ensures r.Some? ==> r.value < U32 && Pages(r.value, pagesize) && (r.value == 0 || space < r.value)
      ensures r.Some? && file.Length + 4 * pagesize < U32 ==> r.value < file.Length
      ensures space + 4 * pagesize < U32 ==>
                if r.Some? then space + pagesize <= r.value < space + 2 * pagesize else file.Length < space + 4 * pagesize
    {
      TrimRoom(space, pagesize, file.Length);
      TrimShrinks(space, pagesize, file.Length);
      TrimAim(space, pagesize);
      if file.Length > RoundUp32((space + 3 * pagesize) % U32, pagesize)
      then Some(RoundUp32((space + pagesize) % U32, pagesize))
      else None
    }

    /** store_file_trim(): give back excess pages. live names the records in use. */
    method Trim(ok: bool, ghost live: seq<nat>)
      requires Paged() && Laid(file[..], space, live) && space < file.Length
      modifies this`file, file
      ensures file == old(file) || fresh(file)
      ensures Paged() && Laid(file[..], space, live) && SameKvs(old(file[..]), file[..], live)
      ensures Grows(old(file.Length), 0)
      ensures ok && space + 4 * pagesize < U32 ==> file.Length < space + 4 * pagesize
    {
      hide Tiled, Data, Aligned, Pages, TrimSize, SameKvs;
      BodyFrame(file[..], file[..], space, live);
      var size := TrimSize();
      if size.Some? {
        ghost var was := file[..];
        var _ := SetSize(size.value, ok);
        PagesAligned(file.Length, pagesize);
        BodyFrame(was, file[..], space, live);
        ghost var mid := file[..];
        AlignedDiff(file.Length, space);
        InitGap(space, file.Length - space);
        BodyFrame(mid, file[..], space, live);
        SameKvsTrans(was, mid, file[..], live);
      }
    }

    // ---- the index --------------------------------------------------------------------------

    lemma {:induction false} Counted()
      requires Mirrored()
      ensures n == |index| == |Entries()| <= max
    {
    }

    lemma {:induction false} CellAt(i: nat)
      requires Mirrored() && i < |index|
      ensures i < n == |index| <= cells.Length && cells[i] == index[i]
    {
      assert cells[..n][i] == cells[i];
    }

    /** store_index_ensure(): room for slot i. ok says whether realloc() obliges. */
    method IndexEnsure(i: nat, ok: bool) returns (done: bool)
      requires Mirrored()
      modifies this`max, this`cells
      ensures cells == old(cells) || fresh(cells)
      ensures Mirrored() && done == (i < old(max) || ok)
      ensures done ==> i < max
      ensures i < old(max) || !done ==> max == old(max) && cells == old(cells)
      ensures max >= old(max)
    {
      done := true;
      if i >= max {
        if ok {
          var size := (i + 1 + 63) / 64 * 64;
          var block := new nat[size];
          for k := 0 to n
            invariant Mirrored() && cells == old(cells)
            invariant forall j :: 0 <= j < k ==> block[j] == cells[j]
          {
            block[k] := cells[k];
          }
          assert block[..n] == cells[..n];
          max, cells := size, block;
        } else {
          done := false;
        }
      }
    }

    /** memmove() of the cells from i to n up by one, last one first. */
    method ShiftUp(i: nat)
      requires i <= n < cells.Length
      modifies cells
      ensures forall j :: 0 <= j < i ==> cells[j] == old(cells[j])
      ensures forall j :: i < j <= n ==> cells[j] == old(cells[j - 1])
    {
      var k := n;
      while k > i
        invariant i <= k <= n
        invariant forall j :: 0 <= j < k ==> cells[j] == old(cells[j])
        invariant forall j :: k < j <= n ==> cells[j] == old(cells[j - 1])
      {
        cells[k] := cells[k - 1];
        k := k - 1;
      }
    }

    /** memmove() of the cells behind i down by one. */
    method ShiftDown(i: nat)
      requires i < n <= cells.Length
      modifies cells
      ensures forall j :: 0 <= j < i ==> cells[j] == old(cells[j])
      ensures forall j :: i <= j < n - 1 ==> cells[j] == old(cells[j + 1])
    {
      for k := i to n - 1
        invariant forall j :: 0 <= j < i || k < j < n ==> cells[j] == old(cells[j])
        invariant forall j :: i <= j < k ==> cells[j] == old(cells[j + 1])
        invariant cells[k] == old(cells[k])
      {
        cells[k] := cells[k + 1];
      }
    }

    /** store_index_insert(), with the new cell set to off. */
    method IndexInsert(i: nat, off: nat, ok: bool) returns (done: bool)
      requires Mirrored() && i <= |index|
      modifies this`index, this`max, this`n, this`cells, cells
      ensures cells == old(cells) || fresh(cells)
      ensures Mirrored() && done == (|old(index)| < old(max) || ok)
      ensures done ==> index == old(index)[..i] + [off] + old(index)[i..]
      ensures !done ==> index == old(index) && max == old(max)
      ensures |index| <= max
    {
      done := IndexEnsure(n, ok);
      if done {
        ghost var was := cells[..n];
        if i != n {
          ShiftUp(i);
        }
        n := n + 1;
        cells[i] := off;
        index := index[..i] + [off] + index[i..];
        Opened(was, cells[..n], i, off);
      }
    }

    static lemma {:induction false} Opened(a: seq<nat>, b: seq<nat>, i: nat, x: nat)
      requires i <= |a| && |b| == |a| + 1 && b[i] == x
      requires (forall j :: 0 <= j < i ==> b[j] == a[j]) && forall j :: i < j < |b| ==> b[j] == a[j - 1]
      ensures b == a[..i] + [x] + a[i..]
    {
    }

    static lemma {:induction false} Shut(a: seq<nat>, b: seq<nat>, i: nat)
      requires i < |a| == |b| + 1
      requires (forall j :: 0 <= j < i ==> b[j] == a[j]) && forall j :: i <= j < |b| ==> b[j] == a[j + 1]
      ensures b == a[..i] + a[i + 1..]
    {
    }

    /** store_index_delete() */
    method IndexDelete(i: nat)
      requires Mirrored() && i < |index|
      modifies this`index, this`n, cells
      ensures Mirrored() && index == old(index)[..i] + old(index)[i + 1..]
    {
      ghost var was := cells[..n];
      ShiftDown(i);
      n := n - 1;
      index := index[..i] + index[i + 1..];
      Shut(was, cells[..n], i);
    }

    /** store->index[k] = offs[k] for all of them. */
    method IndexFill(offs: seq<nat>)
      requires cells.Length == max && |offs| <= max
      modifies this`index, this`n, cells
      ensures Mirrored() && index == offs
    {
      n := |offs|;
      for k := 0 to n
        invariant n == |offs| && forall j :: 0 <= j < k ==> cells[j] == offs[j]
      {
        cells[k] := offs[k];
      }
      index := offs;
    }

    /** One step of sorting: x goes behind every entry whose key is not above its own. */
    method SortInsert(offs: seq<nat>, x: nat) returns (r: seq<nat>)
      requires ByKey(Kvs(file[..], offs))
      ensures multiset(r) == multiset(offs + [x]) && ByKey(Kvs(file[..], r))
    {
      hide Less, KeyOf, KvOr, Kvs, ByKey;
      var key := KeyOf(KvOr(file[..], x));
      var p := |offs|;
      while p > 0 && Less(key, KeyOf(KvOr(file[..], offs[p - 1])))
        invariant 0 <= p <= |offs|
        invariant forall j :: p <= j < |offs| ==> Less(key, KeyOf(KvOr(file[..], offs[j])))
      {
        p := p - 1;
      }
      r := offs[..p] + [x] + offs[p..];
      WithSlot(offs, p, x);
      KvsInsert(file[..], offs, p, x);
      ByKeyInsert(Kvs(file[..], offs), p, KvOr(file[..], x));
    }

    /** Stands for qsort() with info_compar; callers use no more than its contract. */
    method SortIndex(offs: seq<nat>) returns (r: seq<nat>)
      ensures multiset(r) == multiset(offs) && ByKey(Kvs(file[..], r))
    {
      r := [];
      for i := 0 to |offs|
        invariant multiset(r) == multiset(offs[..i]) && ByKey(Kvs(file[..], r))
      {
        hide ByKey;
        ghost var was := r;
        r := SortInsert(r, offs[i]);
        assert offs[..i + 1] == offs[..i] + [offs[i]];
      }
      assert offs[..|offs|] == offs;
    }

    /** The body of store_repack()'s loop for the data record at r: slide it down, and note where it is. */
    method SlideRecord(ghost was: seq<byte>, ghost end: nat, r: nat, w: nat, idx: seq<nat>) returns (w': nat, idx': seq<nat>)
      requires Packed(was, file[..], r, w, end) && r < end <= |was| < U32 && r + 8 <= |was| && !IsGap(was, r)
      requires idx == Data(file[..], 0, w) && |idx| == |Data(was, 0, r)|
      requires w == Total(DataKvs(file[..], 0, w))
      requires Tiled(was, 0, end) && |Data(was, 0, end)| <= max && Mirrored()
      modifies this`max, this`cells, file
      ensures max == old(max) && cells == old(cells) && Mirrored() && r + RecSize(was, r) <= end
      ensures Packed(was, file[..], r + RecSize(was, r), w', end)
      ensures idx' == Data(file[..], 0, w') && |idx'| == |Data(was, 0, r + RecSize(was, r))|
      ensures w' == Total(DataKvs(file[..], 0, w'))
    {
      hide Pages, Tiled, Data, DataKvs, Aligned, Total, RecSize, Splice;
      ghost var img := file[..];
      TiledStep(was, r, end);
      TiledJoin(was, 0, r, end);
      HeaderSame(was, img, r, |was|);
      var recSz := RecSize(file[..], r);
      if w != r {
        SlideDown(w, r, recSz);
      }
      SlideSame(was, img, r, w, r + recSz, file[..]);
      PackInfo(was, img, r, w, end, file[..], r + recSz, w + recSz);
      TotalAppend(DataKvs(img, 0, w), Kv(was, r));
      var done := IndexEnsure(|idx|, false);
      assert done;
      idx' := idx + [w];
      w' := w + recSz;
    }

    /** The loop of store_repack(): the records slid together, and their offsets. The records to keep end
        at end, and so does the space, but for a gap there that reaches beyond the file. */
    method SlideAll(ghost end: nat) returns (w: nat, idx: seq<nat>)
      requires file.Length < U32 && Tiled(file[..], 0, end) && |Data(file[..], 0, end)| <= max
      requires ScanStops(file[..], end, space) && Mirrored()
      modifies this`max, this`cells, file
      ensures max == old(max) && cells == old(cells) && Mirrored() && w <= end <= file.Length && Aligned(w) && Tiled(file[..], 0, w) && idx == Data(file[..], 0, w) && |idx| <= max
      ensures DataKvs(file[..], 0, w) == old(DataKvs(file[..], 0, end)) && w == Total(DataKvs(file[..], 0, w))
    {
      hide Pages, Tiled, Data, DataKvs, Aligned, Total, RecSize, GapField;
      ghost var was := file[..];
      assert end <= |was| by { TiledRange(was, 0, end); }
      var r := 0;
      w, idx := 0, [];
      ghost var p: nat := 0;
      PackedStart(was, end);
      while r < space
        invariant Packed(was, file[..], p, w, end) && (r == p || (p == end && r == space))
        invariant idx == Data(file[..], 0, w) && |idx| == |Data(was, 0, p)|
        invariant w == Total(DataKvs(file[..], 0, w))
        invariant unchanged(this)
        decreases space - r
      {
        if p < end { TiledStep(was, p, end); }
        HeaderSame(was, file[..], r, |was|);
        var recSz := RecSize(file[..], r);
        if !IsGap(file[..], r) {
          w, idx := SlideRecord(was, end, r, w, idx);
          p := r + recSz;
        } else if p < end {
          PackGap(was, file[..], r, w, end);
          p := r + recSz;
        }
        r := r + recSz;
      }
    }

    /** store_repack(): slide the data records together and rebuild the sorted index. */
    method Repack(ghost end: nat)
      requires Mirrored() && file.Length < U32 && Aligned(file.Length) && ScanStops(file[..], end, space)
      requires Tiled(file[..], 0, end) && |Data(file[..], 0, end)| <= max
      modifies this`space, this`index, this`n, this`cells, this`max, file, cells
      ensures cells == old(cells) || fresh(cells)
      ensures space <= end && Laid(file[..], space, index)
      ensures DataKvs(file[..], 0, space) == old(DataKvs(file[..], 0, end))
      ensures space == Total(DataKvs(file[..], 0, space))
      ensures Mirrored() && ByKey(Entries()) && |index| <= max == old(max)
    {
      hide Pages, Tiled, Data, DataKvs, Aligned, Total, ByKey, RecSize, Kvs;
      ghost var was := file[..];
      var w, idx := SlideAll(end);
      ghost var packed := file[..];
      SetSpace(w);
      BodyFrame(packed, file[..], w, idx);
      DataKvsFrame(packed, file[..], 0, w);
      var sorted := SortIndex(idx);
      SameLength(sorted, idx);
      IndexFill(sorted);
      SameLength(index, idx);
    }

    /** store_repack() in an intact store: the same entries in the same order, without gaps. */
    method RepackValid()
      requires Valid()
      modifies this`space, this`index, this`n, this`cells, this`max, file, cells
      ensures cells == old(cells) || fresh(cells)
      ensures Valid() && Entries() == old(Entries()) && max == old(max)
      ensures space <= old(space) && space == Total(Entries())
    {
      hide Pages, Tiled, Data, DataKvs, Aligned, Total, ByKey, Sorted, Kvs;
      ghost var was := file[..];
      ghost var es := Entries();
      PagesAligned(file.Length, pagesize);
      SameLength(index, Data(was, 0, space));
      KvsPermute(was, index, Data(was, 0, space));
      DataKvsAt(was, 0, space);
      Repack(space);
      DataKvsAt(file[..], 0, space);
      KvsPermute(file[..], index, Data(file[..], 0, space));
      TotalPermute(Entries(), DataKvs(file[..], 0, space));
      StrictFromPermutation(Entries(), es);
    }

    /** Not even without gaps do the records leave room for one of sz bytes. */
    ghost predicate Crowded(sz: nat)
      reads this, file
    {
      Total(Entries()) + InfoSize(sz) > file.Length
    }

    // ---- allocation -------------------------------------------------------------------------

    /** Whether a record for sz bytes fits in the space at the end. */
    predicate Fits(sz: nat)
      reads this
    {
      InfoSize(sz) <= file.Length - space
    }

    /** The tail of store_file_alloc(): carve the record off the front of the space. */
    method Carve(sz: nat, ghost live: seq<nat>) returns (off: nat)
      requires Paged() && Body(file[..], space, live) && 0 < sz < 0x10000 && Fits(sz)
      modifies this`space, file
      ensures off == old(space) && space == old(space) + InfoSize(sz)
      ensures Laid(file[..], space, live + [off]) && SameKvs(old(file[..]), file[..], live)
      ensures InfoAt(file[..], off) && SzAt(file[..], off) == sz
    {
      hide Pages, Tiled, Data, Aligned;
      ghost var was := file[..];
      off := space;
      PagesAligned(file.Length, pagesize);
      AlignedSum(space, InfoSize(sz));
      SetSpace(space + InfoSize(sz));
      ghost var mid := file[..];
      PutSz(off, sz);
      AppendLaid(was, off, live, sz, mid, file[..]);
    }

    /** store_file_alloc() when the space at the end is too small: repack, then extend the file. */
    method MakeRoom(sz: nat, growOk: bool) returns (done: bool)
      requires Valid() && 0 < sz < 0x10000
      modifies this`space, this`index, this`n, this`cells, this`max, this`file, file, cells
      ensures cells == old(cells) || fresh(cells)
      ensures file == old(file) || fresh(file)
      ensures Paged() && Body(file[..], space, index) && Entries() == old(Entries()) && |index| <= max == old(max)
      ensures Sorted(Entries())
      ensures done ==> Fits(sz)
      ensures !done ==> Valid() && Crowded(sz)
      ensures !old(Crowded(sz)) ==> done && file.Length == old(file.Length)
      ensures Grows(old(file.Length), InfoSize(sz) + pagesize)
      ensures growOk && old(file.Length) + InfoSize(sz) + pagesize < U32 ==> done
    {
      hide Pages, Tiled, Data, Aligned, Kvs, Sorted, Total;
      RepackValid();
      done := true;
      if !Fits(sz) {
        if file.Length >= U32 - 1 - InfoSize(sz) {
          done := false;
        } else {
          var newSz := RoundUp32(space + InfoSize(sz), pagesize);
          ghost var was := file[..];
          done := SetSize(newSz, growOk);
          PagesAligned(file.Length, pagesize);
          BodyFrame(was, file[..], space, index);
          SameKvsEqual(was, file[..], index);
        }
      }
    }

    /** store_file_alloc(). live names the records in use; when the record does not fit, those are
        the ones in the index. Returns a negative offset for NULL. */
    method FileAlloc(sz: nat, growOk: bool, ghost live: seq<nat>) returns (off: int)
      requires Paged() && Laid(file[..], space, live) && 0 < sz < 0x10000
      requires !Fits(sz) ==> Valid() && live == index
      modifies this`space, this`index, this`n, this`cells, this`max, this`file, file, cells
      ensures cells == old(cells) || fresh(cells)
      ensures file == old(file) || fresh(file)
      ensures Paged() && max == old(max)
      ensures old(Fits(sz)) ==> off >= 0 && index == old(index) &&
                                Laid(file[..], space, live + [off]) && SameKvs(old(file[..]), file[..], live)
      ensures !old(Fits(sz)) ==> Entries() == old(Entries()) && |index| <= max
      ensures !old(Fits(sz)) && off >= 0 ==> Laid(file[..], space, index + [off])
      ensures !old(Fits(sz)) && off < 0 ==> Valid() && Crowded(sz)
      ensures !old(Fits(sz)) && !old(Crowded(sz)) ==> off >= 0 && file.Length == old(file.Length)
      ensures off >= 0 ==> InfoAt(file[..], off) && SzAt(file[..], off) == sz
      ensures Grows(old(file.Length), InfoSize(sz) + pagesize)
      ensures old(Fits(sz)) ==> file.Length == old(file.Length)
      ensures growOk && old(file.Length) + InfoSize(sz) + pagesize < U32 ==> off >= 0
    {
      hide Pages, Tiled, Data, Aligned, Kvs, Sorted, Total;
      var done := true;
      ghost var use := live;
      if !Fits(sz) {
        done := MakeRoom(sz, growOk);
        use := index;
      }
      off := -1;
      if done {
        ghost var was := file[..];
        off := Carve(sz, use);
        SameKvsEqual(was, file[..], use);
      }
    }

    /** store_file_dealloc(): the record at off becomes free space or a gap. */
    method FileDealloc(off: nat, trimOk: bool, ghost live: seq<nat>, ghost rest: seq<nat>)
      requires Paged() && Laid(file[..], space, live) && Without(live, off, rest)
      modifies this`space, this`file, file
      ensures file == old(file) || fresh(file)
      ensures Paged() && Laid(file[..], space, rest) && SameKvs(old(file[..]), file[..], rest)
      ensures Grows(old(file.Length), 0)
      ensures if off + Alloc(old(file[..]), off) == old(space)
              then space == off && (trimOk && off + 4 * pagesize < U32 ==> file.Length < off + 4 * pagesize)
              else space == old(space) && GapAt(file[..], off, Stretch(old(file[..]), off))
    {
      hide Pages, Tiled, Data, Aligned, Kvs, SameKvs, Body, Kv, RecSize;
      ghost var was := file[..];
      WithoutIn(live, off, rest);
      SpanOwn(was, space, live, off);
      BodyInfos(was, space, live);
      PagesAligned(file.Length, pagesize);
      var after := off + InfoSize(SzAt(file[..], off));
      if after == space {
        SetSpace(off);
        RewindLaid(was, old(space), live, off, file[..], rest);
        ghost var mid := file[..];
        Trim(trimOk, rest);
        SameKvsTrans(was, mid, file[..], rest);
      } else {
        var gapSz := InfoSize(SzAt(file[..], off));
        TiledStep(was, after, space);
        if IsGap(file[..], after) {
          SpanGap(was, off, after, space);
          gapSz := gapSz + RecSize(file[..], after);
        }
        AlignedDiff(off + gapSz, off);
        InitGap(off, gapSz);
        GapSpanLaid(was, space, live, off, off + gapSz, file[..], rest);
      }
    }

    // ---- resizing ---------------------------------------------------------------------------

    /** After resizing entry i of es: the layout stands, entry i has room for sz bytes of
        undefined content, and every other entry is as it was. */
    ghost predicate Reshaped(es: seq<seq<byte>>, i: nat, sz: nat)
      reads this, file, cells
    {
      Paged() && Laid(file[..], space, index) && |index| == |es| <= max && i < |es| &&
      InfoAt(file[..], index[i]) && SzAt(file[..], index[i]) == sz &&
      forall j :: 0 <= j < |es| && j != i ==> Entries()[j] == es[j]
    }

    /** The allocation can stay the same size. */
    method ResizeInPlace(i: nat, newSz: nat)
      requires Valid() && i < |index| && 0 < newSz < 0x10000
      requires InfoSize(newSz) == InfoSize(SzAt(file[..], index[i]))
      modifies file
      ensures Reshaped(old(Entries()), i, newSz)
    {
      hide Pages, Tiled, Data, Aligned, Sorted, Mirror;
      ghost var was := file[..];
      CellAt(i);
      var off := cells[i];
      SpanOwn(was, space, index, off);
      PutSz(off, newSz);
      TileOneInfo(file[..], off);
      ResizeLaid(was, space, index, off, End(was, off), file[..]);
      OthersKept(was, file[..], space, index, i);
    }

    /** Shrinking the last record: space grows backwards. */
    method ShrinkLast(i: nat, newSz: nat, trimOk: bool)
      requires Valid() && i < |index| && 0 < newSz < 0x10000
      requires InfoSize(newSz) < InfoSize(SzAt(file[..], index[i]))
      requires index[i] + InfoSize(SzAt(file[..], index[i])) == space
      modifies this`space, this`file, file
      ensures file == old(file) || fresh(file)
      ensures Reshaped(old(Entries()), i, newSz)
      ensures Grows(old(file.Length), 0)
    {
      hide Pages, Tiled, Data, Aligned, Sorted, Kvs, Body, SameKvs, RecSize, Mirror;
      ghost var was := file[..];
      CellAt(i);
      var off := cells[i];
      BodyInfos(was, space, index);
      var newAlloc := InfoSize(newSz);
      PagesAligned(file.Length, pagesize);
      AlignedSum(off, newAlloc);
      PutSz(off, newSz);
      ghost var mid := file[..];
      SetSpace(off + newAlloc);
      ghost var cut := file[..];
      ShrinkTailLaid(was, old(space), index, off, newSz, mid, cut);
      OthersKept(was, cut, old(space), index, i);
      Trim(trimOk, index);
      SameKvsEqual(cut, file[..], index);
    }

    /** Shrinking any other record leaves a gap behind it; a gap that follows is not merged. */
    method ShrinkMiddle(i: nat, newSz: nat)
      requires Valid() && i < |index| && 0 < newSz < 0x10000
      requires InfoSize(newSz) < InfoSize(SzAt(file[..], index[i]))
      modifies file
      ensures Reshaped(old(Entries()), i, newSz)
    {
      hide Pages, Tiled, Data, Aligned, Sorted, Kvs, SameKvs, Body, Kv, KvOr, RecSize, Mirror;
      ghost var was := file[..];
      CellAt(i);
      var off := cells[i];
      SpanOwn(was, space, index, off);
      BodyInfos(was, space, index);
      var oldAlloc, newAlloc := InfoSize(SzAt(file[..], off)), InfoSize(newSz);
      PutSz(off, newSz);
      AlignedDiff(oldAlloc, newAlloc);
      InitGap(off + newAlloc, oldAlloc - newAlloc);
      TileInfoGap(file[..], off, newSz, off + oldAlloc);
      ResizeLaid(was, space, index, off, off + oldAlloc, file[..]);
      OthersKept(was, file[..], space, index, i);
    }

    /** Growing into the gap behind the record: exactly, or splitting it. */
    method GrowIntoGap(i: nat, newSz: nat, after: nat, afterSz: nat)
      requires Valid() && i < |index| && 0 < newSz < 0x10000
      requires after == index[i] + InfoSize(SzAt(file[..], index[i])) < space
      requires after + 8 <= file.Length && IsGap(file[..], after) && afterSz == RecSize(file[..], after)
      requires after < index[i] + InfoSize(newSz) <= after + afterSz
      modifies file
      ensures Reshaped(old(Entries()), i, newSz)
    {
      hide Pages, Tiled, Data, Aligned, Sorted, Kvs, SameKvs, Body, Kv, KvOr, RecSize, Mirror;
      ghost var was := file[..];
      CellAt(i);
      var off := cells[i];
      SpanOwn(was, space, index, off);
      BodyInfos(was, space, index);
      SpanGap(was, off, after, space);
      var end, gap := after + afterSz, off + InfoSize(newSz);
      AlignedSum(off, InfoSize(newSz));
      AlignedDiff(end, gap);
      if gap != end {
        InitGap(gap, end - gap);
      }
      ghost var mid := file[..];
      PutSz(off, newSz);
      if gap != end {
        GapKept(mid, file[..], gap, end - gap);
        TileInfoGap(file[..], off, newSz, end);
      } else {
        TileOneInfo(file[..], off);
      }
      ResizeLaid(was, space, index, off, end, file[..]);
      OthersKept(was, file[..], space, index, i);
    }

    /** The record becomes a gap, together with a gap behind it; index[i] is left dangling. */
    method Abandon(i: nat)
      requires Valid() && i < |index|
      modifies file
      ensures Laid(file[..], space, index[..i] + index[i + 1..])
      ensures SameKvs(old(file[..]), file[..], index[..i] + index[i + 1..])
    {
      hide Pages, Tiled, Data, Aligned, Sorted, Kvs, Body, SameKvs, Mirror;
      ghost var was := file[..];
      CellAt(i);
      var off := cells[i];
      ghost var rest := index[..i] + index[i + 1..];
      WithoutSlot(index, i);
      SpanOwn(was, space, index, off);
      BodyInfos(was, space, index);
      var q := off + InfoSize(SzAt(file[..], off));
      if q != space {
        TiledStep(was, q, space);
        if IsGap(file[..], q) {
          SpanGap(was, off, q, space);
          q := q + RecSize(file[..], q);
        }
      }
      AlignedDiff(q, off);
      InitGap(off, q - off);
      GapSpanLaid(was, space, index, off, q, file[..], rest);
    }

    /** An abandoned record i moves to the space at the end. */
    method MoveToSpace(i: nat, newSz: nat, ghost es: seq<seq<byte>>) returns (off: nat)
      requires Paged() && i < |index| == |es| <= max && 0 < newSz < 0x10000 && Fits(newSz)
      requires Laid(file[..], space, index[..i] + index[i + 1..])
      requires Kvs(file[..], index[..i] + index[i + 1..]) == es[..i] + es[i + 1..]
      modifies this`space, this`index, this`n, this`cells, this`max, this`file, file, cells
      ensures cells == old(cells) || fresh(cells)
      ensures file == old(file) || fresh(file)
      ensures Reshaped(es, i, newSz) && index[i] == off
      ensures file.Length == old(file.Length)
    {
      hide Pages, Tiled, Data, Aligned, Sorted, Kvs, Body, Tail, SameKvs, SzAt, InfoAt, InfoSize, KvOr;
      ghost var rest := index[..i] + index[i + 1..];
      ghost var was := file[..];
      var o := FileAlloc(newSz, false, rest);
      off := o;
      cells[i] := off;
      index := index[i := off];
      ReplaceSlot(old(index), i, off);
      LaidPermute(file[..], space, rest + [off], index);
      SameKvsEqual(was, file[..], rest);
      KvsReplace(file[..], old(index), i, off);
      PickOthers(es, i, Kvs(file[..], index));
    }

    /** An abandoned record i, gone from the index, moves after making room for it. */
    method MoveWithRoom(i: nat, newSz: nat, growOk: bool, ghost es: seq<seq<byte>>) returns (off: int)
      requires Valid() && i < |es| == |index| + 1 <= max && 0 < newSz < 0x10000
      requires Entries() == es[..i] + es[i + 1..]
      modifies this`space, this`index, this`n, this`cells, this`max, this`file, file, cells
      ensures cells == old(cells) || fresh(cells)
      ensures file == old(file) || fresh(file)
      ensures off >= 0 ==> Reshaped(es, i, newSz) && index[i] == off
      ensures off < 0 ==> Valid() && Entries() == old(Entries()) && Crowded(newSz)
      ensures !old(Crowded(newSz)) ==> off >= 0 && file.Length == old(file.Length)
      ensures Grows(old(file.Length), InfoSize(newSz) + pagesize)
      ensures growOk && old(file.Length) + InfoSize(newSz) + pagesize < U32 ==> off >= 0
    {
      hide Pages, Tiled, Data, Aligned, Sorted, Kvs, Body, Tail, SzAt, InfoSize, InfoAt, SameKvs, Mirror, Total;
      var fit := Fits(newSz);
      ghost var was, live := file[..], index;
      off := FileAlloc(newSz, growOk, index);
      if off >= 0 {
        if fit { SameKvsEqual(was, file[..], live); }
        ghost var idx := index;
        assert |Kvs(file[..], idx)| == |idx|;
        var done := IndexInsert(i, off, false);
        assert done;
        WithSlot(idx, i, off);
        LaidPermute(file[..], space, idx + [off], index);
        KvsInsert(file[..], idx, i, off);
        PutOthers(es, i, Kvs(file[..], index), KvOr(file[..], off));
      }
    }

    /** A growing record that has to move: to the space at the end, or after making room. */
    method Relocate(i: nat, newSz: nat, growOk: bool) returns (off: int)
      requires Valid() && i < |index| && 0 < newSz < 0x10000
      modifies this`space, this`index, this`n, this`cells, this`max, this`file, file, cells
      ensures cells == old(cells) || fresh(cells)
      ensures file == old(file) || fresh(file)
      ensures off >= 0 ==> Reshaped(old(Entries()), i, newSz) && index[i] == off
      ensures off < 0 ==> Valid() && Entries() == old(Entries())[..i] + old(Entries())[i + 1..] && Crowded(newSz)
      ensures Total(old(Entries())[..i] + old(Entries())[i + 1..]) + InfoSize(newSz) <= old(file.Length) ==>
                off >= 0 && Grows(old(file.Length), 0)
      ensures Grows(old(file.Length), InfoSize(newSz) + pagesize)
      ensures growOk && old(file.Length) + InfoSize(newSz) + pagesize < U32 ==> off >= 0
    {
      hide Pages, Tiled, Data, Aligned, Sorted, Kvs, Body, Tail, SzAt, InfoSize, InfoAt, SameKvs, Total;
      ghost var es := Entries();
      ghost var was := file[..];
      Abandon(i);
      SameKvsEqual(was, file[..], index[..i] + index[i + 1..]);
      KvsRemove(was, index, i);
      if InfoSize(newSz) < file.Length - space {
        off := MoveToSpace(i, newSz, es);
      } else {
        IndexDelete(i);
        RemoveSorted(es, i);
        off := MoveWithRoom(i, newSz, growOk, es);
      }
    }

    /** The branches of store_info_realloc() that leave the record where it is: done says whether one did. */
    method StayPut(i: nat, newSz: nat, trimOk: bool) returns (done: bool)
      requires Valid() && i < |index| && 0 < newSz < 0x10000
      modifies this`space, this`file, file
      ensures file == old(file) || fresh(file)
      ensures done <==> Roomy(old(file[..]), old(space), index[i], newSz)
      ensures done ==> Reshaped(old(Entries()), i, newSz) && Grows(old(file.Length), 0)
      ensures !done ==> space == old(space) && file == old(file) && file[..] == old(file[..])
    {
      hide Pages, Tiled, Data, Aligned, Sorted, Kvs, GapSize, Body, SzAt, InfoSize, RecSize, Mirror, Reshaped, SameKvs, InfoAt, KvOr, Tail;
      ghost var img := file[..];
      CellAt(i);
      var off := cells[i];
      SpanOwn(img, space, index, off);
      BodyInfos(img, space, index);
      var oldAlloc, newAlloc := InfoSize(SzAt(file[..], off)), InfoSize(newSz);
      if newAlloc == oldAlloc {
        ResizeInPlace(i, newSz);
        return true;
      }
      var after := off + oldAlloc;
      if newAlloc < oldAlloc {
        if after == space {
          ShrinkLast(i, newSz, trimOk);
        } else {
          ShrinkMiddle(i, newSz);
        }
        return true;
      }
      if after != space {
        TiledStep(img, after, space);
        if IsGap(file[..], after) && RecSize(file[..], after) >= newAlloc - oldAlloc {
          GrowIntoGap(i, newSz, after, RecSize(file[..], after));
          return true;
        }
      }
      done := false;
    }

    /** store_info_realloc(): give entry i room for newSz bytes of undefined content. When that
        fails the entry is gone, because its old record was already made a gap. */
    method InfoRealloc(i: nat, newSz: nat, growOk: bool, trimOk: bool) returns (off: int)
      requires Valid() && i < |index| && 0 < newSz < 0x10000
      modifies this`space, this`index, this`n, this`cells, this`max, this`file, file, cells
      ensures cells == old(cells) || fresh(cells)
      ensures file == old(file) || fresh(file)
      ensures Roomy(old(file[..]), old(space), old(index[i]), newSz) ==> off == old(index[i])
      ensures off >= 0 ==> Reshaped(old(Entries()), i, newSz) && index[i] == off
      ensures off < 0 ==> Valid() && Entries() == old(Entries())[..i] + old(Entries())[i + 1..] && Crowded(newSz)
      ensures Total(old(Entries())[..i] + old(Entries())[i + 1..]) + InfoSize(newSz) <= old(file.Length) ==>
                off >= 0 && Grows(old(file.Length), 0)
      ensures Grows(old(file.Length), InfoSize(newSz) + pagesize)
      ensures growOk && old(file.Length) + InfoSize(newSz) + pagesize < U32 ==> off >= 0
    {
      hide Pages, Tiled, Data, Aligned, Sorted, Kvs, Total, Body, SzAt, InfoSize, RecSize, Mirror, InfoAt, Tail, Roomy;
      CellAt(i);
      var stays := StayPut(i, newSz, trimOk);
      if stays {
        off := cells[i];
      } else {
        off := Relocate(i, newSz, growOk);
      }
    }

    // ---- public operations ------------------------------------------------------------------

    /** The key of entry i. */
    function KeyAt(i: nat): (r: seq<byte>)
      requires Mirrored() && i < n
      reads this, file, cells
      ensures r == KeyOf(Entries()[i])
    {
      KeyOf(KvOr(file[..], cells[i]))
    }

    /** store_find(): binary search for the slot of key, or where it would go. */
    method Find(key: seq<byte>) returns (m: nat)
      requires Valid()
      ensures IsSlot(Entries(), key, m)
    {
      hide Laid, Kvs, KeyOf, Less;
      ghost var es := Entries();
      var a, b := 0, n;
      m := (a + b) / 2;
      while m > a
        invariant 0 <= a <= b <= |index| && m == (a + b) / 2
        invariant forall j :: 0 <= j < a ==> Less(KeyOf(es[j]), key)
        invariant forall j :: b <= j < |es| ==> !Less(KeyOf(es[j]), key)
        decreases b - a
      {
        if key == KeyAt(m) {
          break;
        } else if Less(key, KeyAt(m)) {
          AboveSlot(es, key, m);
          b := m;
        } else {
          BelowSlot(es, key, m);
          a := m + 1;
        }
        m := (a + b) / 2;
      }
      if m < b {
        LessTotal(key, KeyAt(m));
        if Less(KeyAt(m), key) {
          LessAsymmetric(KeyAt(m), key);
          BelowSlot(es, key, m);
          m := m + 1;
        } else if key == KeyAt(m) {
          EqualSlot(es, key, m);
        } else {
          AboveSlot(es, key, m);
        }
      }
    }

    /** What store_eq() says of the entries. */
    lemma {:induction false} SlotIs(i: nat, key: seq<byte>)
      requires Mirrored()
      ensures |Entries()| == |index| && (SlotHas(i, key) <==> i < |index| && KeyOf(Entries()[i]) == key)
    {
      hide Kvs, KeyOf;
      if i < |index| { CellAt(i); }
    }

    /** store_eq() */
    predicate SlotHas(i: nat, key: seq<byte>)
      requires Mirrored()
      reads this, file, cells
    {
      i < n && KeyAt(i) == key
    }

    /** memcpy(info->keyvalue, keyvalue, sz) into a record with room for exactly that. */
    method Fill(i: nat, kv: seq<byte>)
      requires Paged() && Laid(file[..], space, index) && i < |index| <= max
      requires InfoAt(file[..], index[i]) && SzAt(file[..], index[i]) == |kv|
      modifies file
      ensures Paged() && Laid(file[..], space, index)
      ensures Entries() == old(Entries())[i := kv]
    {
      hide Pages, Tiled, Data, Aligned, Body, RecSize, Mirror;
      ghost var was := file[..];
      CellAt(i);
      Poke(cells[i] + 2, kv);
      FillLaid(was, space, index, index[i], kv, file[..]);
      OthersKept(was, file[..], space, index, i);
    }

    /** The path of store_put() for a key that is already there, with another value. */
    method Replace(i: nat, kv: seq<byte>, growOk: bool, trimOk: bool) returns (r: int)
      requires Valid() && i < |index| && IsKeyValue(kv) && KeyOf(kv) == KeyAt(i)
      modifies this`space, this`index, this`n, this`cells, this`max, this`file, file, cells
      ensures cells == old(cells) || fresh(cells)
      ensures file == old(file) || fresh(file)
      ensures Valid() && (r == 1 || r == -1)
      ensures r == 1 ==> Entries() == old(Entries())[i := kv]
      ensures r == -1 ==> Entries() == old(Entries())[..i] + old(Entries())[i + 1..] && Crowded(|kv|)
      ensures Total(old(Entries())[..i] + old(Entries())[i + 1..]) + InfoSize(|kv|) <= old(file.Length) ==>
                r == 1 && Grows(old(file.Length), 0)
      ensures Grows(old(file.Length), InfoSize(|kv|) + pagesize)
      ensures growOk && old(file.Length) + InfoSize(|kv|) + pagesize < U32 ==> r == 1
    {
      hide Pages, Tiled, Data, Aligned, Body, Sorted, Kvs, Total;
      ghost var es := Entries();
      var off := InfoRealloc(i, |kv|, growOk, trimOk);
      if off < 0 {
        return -1;
      }
      ghost var mid := Entries();
      Fill(i, kv);
      assert mid[i := kv] == es[i := kv];
      ReplaceUpdates(es, i, kv);
      r := 1;
    }

    /** The path of store_put() for a new key. */
    method Add(i: nat, kv: seq<byte>, growOk: bool, indexOk: bool, trimOk: bool) returns (r: int)
      requires Valid() && IsKeyValue(kv) && IsSlot(Entries(), KeyOf(kv), i) && KeyOf(kv) !in Map()
      modifies this`space, this`index, this`n, this`cells, this`max, this`file, file, cells
      ensures cells == old(cells) || fresh(cells)
      ensures file == old(file) || fresh(file)
      ensures Valid() && (r == 1 || r == -1)
      ensures r == 1 ==> Entries() == old(Entries())[..i] + [kv] + old(Entries())[i..]
      ensures r == -1 ==> Entries() == old(Entries()) && (indexOk ==> Crowded(|kv|))
      ensures !old(Crowded(|kv|)) ==> (indexOk ==> r == 1) && Grows(old(file.Length), 0)
      ensures Grows(old(file.Length), InfoSize(|kv|) + pagesize)
      ensures growOk && indexOk && old(file.Length) + InfoSize(|kv|) + pagesize < U32 ==> r == 1
    {
      hide Pages, Tiled, Data, Aligned, Body, Sorted, Kvs, ToMap, SameKvs, Tail, SzAt, InfoSize, InfoAt, RecSize, KvOr, KeyOf, Mirror, Total;
      ghost var es := Entries();
      var fit := Fits(|kv|);
      ghost var was, live := file[..], index;
      var off := FileAlloc(|kv|, growOk, index);
      if off < 0 {
        return -1;
      }
      if fit { SameKvsEqual(was, file[..], live); }
      ghost var idx := index;
      var done := Enter(i, off, kv, indexOk);
      if !done {
        ghost var mid := file[..];
        FileDealloc(off, trimOk, idx + [off], idx);
        SameKvsEqual(mid, file[..], idx);
        return -1;
      }
      InsertUpdates(es, i, kv);
      r := 1;
    }

    /** A new record goes into slot i of the index, and its bytes into the file. */
    method Enter(i: nat, off: nat, kv: seq<byte>, indexOk: bool) returns (done: bool)
      requires Paged() && Laid(file[..], space, index + [off]) && i <= |index| <= max
      requires InfoAt(file[..], off) && SzAt(file[..], off) == |kv|
      modifies this`index, this`n, this`cells, this`max, file, cells
      ensures cells == old(cells) || fresh(cells)
      ensures Paged() && done == (|old(index)| < old(max) || indexOk)
      ensures done ==> Laid(file[..], space, index) && |index| <= max && Entries() == old(Entries())[..i] + [kv] + old(Entries())[i..]
      ensures !done ==> index == old(index) && max == old(max) && file[..] == old(file[..])
    {
      hide Pages, Tiled, Data, Aligned, Body, Kvs, Tail, SzAt, InfoSize, InfoAt, RecSize, KvOr, Mirror;
      ghost var idx, es, was := index, Entries(), file[..];
      done := IndexInsert(i, off, indexOk);
      if done {
        WithSlot(idx, i, off);
        LaidPermute(file[..], space, idx + [off], index);
        KvsInsert(file[..], idx, i, off);
        ghost var junk := KvOr(file[..], off);
        Fill(i, kv);
        InsertFilled(es, i, junk, kv);
      }
    }

    /** store_put(). growOk, indexOk and trimOk say whether the system obliges when the file has to
        grow, the index has to grow and the file could shrink. */
    method Put(kv: seq<byte>, growOk: bool, indexOk: bool, trimOk: bool) returns (r: int)
      requires Valid() && IsKeyValue(kv)
      modifies this`space, this`index, this`n, this`cells, this`max, this`file, file, cells
      ensures cells == old(cells) || fresh(cells)
      ensures file == old(file) || fresh(file)
      ensures Valid() && r in {-1, 0, 1}
      ensures r == 0 <==> KeyOf(kv) in old(Map()) && old(Map())[KeyOf(kv)] == kv
      ensures r == 0 ==> Map() == old(Map())
      ensures r == 1 ==> Map() == old(Map())[KeyOf(kv) := kv]
      ensures r == -1 ==> Map() == old(Map()) - {KeyOf(kv)} && (indexOk ==> Crowded(|kv|))
      ensures Total(old(Others(Entries(), KeyOf(kv)))) + InfoSize(|kv|) <= old(file.Length) ==>
                (indexOk ==> r != -1) && Grows(old(file.Length), 0)
      ensures Grows(old(file.Length), InfoSize(|kv|) + pagesize)
      ensures growOk && indexOk && old(file.Length) + InfoSize(|kv|) + pagesize < U32 ==> r != -1
    {
      hide Laid, Sorted, Kvs, ToMap, KeyOf, Mirror, SlotHas, Total, Others, InfoSize;
      ghost var es := Entries();
      var i := Find(KeyOf(kv));
      SlotFinds(es, KeyOf(kv), i);
      OthersSlot(es, KeyOf(kv), i);
      SlotIs(i, KeyOf(kv));
      if SlotHas(i, KeyOf(kv)) {
        CellAt(i);
        if KvOr(file[..], cells[i]) == kv {
          return 0;
        }
        r := Replace(i, kv, growOk, trimOk);
        ReplaceUpdates(es, i, kv);
        RemoveUpdates(es, i);
      } else {
        r := Add(i, kv, growOk, indexOk, trimOk);
        InsertUpdates(es, i, kv);
      }
    }

    /** store_del() of a key. */
    method DelKey(key: seq<byte>, trimOk: bool) returns (r: int)
      requires Valid()
      modifies this`space, this`index, this`n, this`file, file, cells
      ensures file == old(file) || fresh(file)
      ensures Valid()
      ensures r == (if key in old(Map()) then 1 else 0)
      ensures Map() == old(Map()) - {key}
      ensures Grows(old(file.Length), 0)
    {
      hide Pages, Tiled, Data, Aligned, Body, Sorted, Kvs, ToMap, SameKvs, KeyOf, Mirror, SlotHas;
      ghost var es := Entries();
      var i := Find(key);
      SlotFinds(es, key, i);
      SlotIs(i, key);
      if !SlotHas(i, key) {
        return 0;
      }
      CellAt(i);
      ghost var was, rest := file[..], index[..i] + index[i + 1..];
      WithoutSlot(index, i);
      FileDealloc(cells[i], trimOk, index, rest);
      SameKvsEqual(was, file[..], rest);
      KvsRemove(was, index, i);
      IndexDelete(i);
      RemoveUpdates(es, i);
      r := 1;
    }

    /** store_del(); None is the NULL key, which deletes nothing. */
    method Del(key: Option<seq<byte>>, trimOk: bool) returns (r: int)
      requires Valid()
      modifies this`space, this`index, this`n, this`file, file, cells
      ensures file == old(file) || fresh(file)
      ensures Valid() && Grows(old(file.Length), 0)
      ensures r == (if key.Some? && key.value in old(Map()) then 1 else 0)
      ensures Map() == if key.Some? then old(Map()) - {key.value} else old(Map())
    {
      hide Laid, Sorted, Kvs, ToMap;
      match key {
        case None => r := 0;
        case Some(k) => r := DelKey(k, trimOk);
      }
    }

    /** store_get(): the keyvalue, or None for NULL. */
    method Get(key: seq<byte>) returns (r: Option<seq<byte>>)
      requires Valid()
      ensures r == if key in Map() then Some(Map()[key]) else None
    {
      hide Laid, Sorted, Kvs, ToMap, KeyOf, Mirror, SlotHas;
      var i := Find(key);
      SlotFinds(Entries(), key, i);
      SlotIs(i, key);
      if SlotHas(i, key) {
        CellAt(i);
        r := Some(KvOr(file[..], cells[i]));
      } else {
        r := None;
      }
    }

    /** store_get_next(): the entry under the cursor, and the cursor moved on. */
    method Next(ix: nat) returns (r: Option<seq<byte>>, ix': nat)
      requires Valid()
      ensures ix < |Entries()| ==> r == Some(Entries()[ix]) && ix' == ix + 1
      ensures ix >= |Entries()| ==> r == None && ix' == ix
    {
      hide Laid, Sorted;
      if ix >= n {
        return None, ix;
      }
      return Some(KvOr(file[..], cells[ix])), ix + 1;
    }

    // ---- opening ----------------------------------------------------------------------------

    /** Where the run of gaps behind the record at off ends; the sentinel counts. */
    method GapRunEnd(off: nat) returns (next: nat)
      requires Paged() && Laid(file[..], space, index) && off in index
      ensures off + 8 <= next <= file.Length
      ensures next < file.Length ==> Span(file[..], off, next, space)
      ensures next == file.Length ==> Span(file[..], off, space, space)
    {
      hide Pages, Tiled, Data, Aligned, Body, RecSize;
      ghost var img := file[..];
      var filesz: nat := file.Length;
      SpanOwn(img, space, index, off);
      BodyInfos(img, space, index);
      next := off + InfoSize(SzAt(file[..], off));
      ghost var tail := false;
      while next < filesz
        invariant off + 8 <= next <= filesz == file.Length
        invariant !tail ==> Span(img, off, next, space)
        invariant tail ==> next == file.Length && Span(img, off, space, space)
        decreases filesz - next
      {
        if next < space { TiledStep(img, next, space); }
        var recSz := RecSize(file[..], next);
        if !IsGap(file[..], next) {
          break;
        }
        if next < space {
          SpanGap(img, off, next, space);
        } else {
          tail := true;
        }
        if next > Sub32(filesz, recSz) {
          next := filesz;
        } else {
          next := next + recSz;
        }
      }
    }

    /** info_make_gap(): the record at off and the gaps behind it become one gap, or free space. */
    method MakeGap(off: nat, ghost rest: seq<nat>)
      requires Paged() && Laid(file[..], space, index) && Without(index, off, rest)
      modifies this`space, file
      ensures Paged() && Laid(file[..], space, rest) && SameKvs(old(file[..]), file[..], rest)
    {
      hide Pages, Tiled, Data, Aligned, Body, RecSize, SameKvs;
      ghost var was := file[..];
      WithoutIn(index, off, rest);
      BodyInfos(was, space, index);
      PagesAligned(file.Length, pagesize);
      var next := GapRunEnd(off);
      AlignedDiff(next, off);
      InitGap(off, next - off);
      if next == file.Length {
        ghost var mid := file[..];
        SetSpace(off);
        AgreeTrans(was, mid, file[..], 0, off);
        RewindLaid(was, old(space), index, off, file[..], rest);
      } else {
        GapSpanLaid(was, space, index, off, next, file[..], rest);
      }
    }

    /** Takes out entry i, whose key entry i - 1 already has. */
    method DropEntry(i: nat)
      requires Paged() && Laid(file[..], space, index) && i < |index|
      modifies this`space, this`index, this`n, file, cells
      ensures Paged() && Laid(file[..], space, index) && |index| == |old(index)| - 1
      ensures Entries() == old(Entries())[..i] + old(Entries())[i + 1..]
    {
      hide Laid, Kvs, SameKvs, Mirror;
      ghost var was, rest := file[..], index[..i] + index[i + 1..];
      WithoutSlot(index, i);
      CellAt(i);
      MakeGap(cells[i], rest);
      SameKvsEqual(was, file[..], rest);
      KvsRemove(was, index, i);
      IndexDelete(i);
    }

    /** What holds in the de-duplication loop: the entries before i have distinct keys. */
    ghost predicate Deduping(i: nat, all: seq<seq<byte>>)
      reads this, file, cells
    {
      Paged() && Laid(file[..], space, index) && n == |index| == |Entries()| <= max &&
      ByKey(Entries()) && Survives(Entries(), all) && StrictTo(Entries(), if i <= |index| then i else |index|) &&
      (Sorted(all) ==> Entries() == all)
    }

    /** One turn of the de-duplication loop. */
    method DedupeOne(i: nat, ghost all: seq<seq<byte>>) returns (i': nat)
      requires 1 <= i < n && Deduping(i, all)
      modifies this`space, this`index, this`n, file, cells
      ensures 1 <= i' <= i + 1 && n - i' < old(n) - i && Deduping(i', all)
    {
      hide Laid, ByKey, Sorted, Kvs, KeyOf, Less, Survives, StrictTo, Aligned, IsKeyValue, Mirror, Pages;
      ghost var es := Entries();
      if KeyAt(i - 1) != KeyAt(i) {
        StrictExtends(es, i);
        i' := i + 1;
      } else {
        DropDuplicate(es, i, all);
        NoDuplicates(es, i);
        DropEntry(i);
        Counted();
        i' := i;
      }
    }

    /** The de-duplication loop of store_file_open(). */
    method Dedupe()
      requires Paged() && Laid(file[..], space, index) && |index| <= max && ByKey(Entries())
      requires forall j :: 0 <= j < |Entries()| ==> IsKeyValue(Entries()[j])
      modifies this`space, this`index, this`n, file, cells
      ensures Valid() && Survives(Entries(), old(Entries()))
      ensures old(Sorted(Entries())) ==> Entries() == old(Entries())
    {
      hide Laid, ByKey, Sorted, Kvs, KeyOf, Less, Survives, StrictTo, Aligned, IsKeyValue, Mirror, Pages;
      ghost var all := Entries();
      var i: nat := 1;
      DedupeStart(all);
      Counted();
      while i < n
        invariant 1 <= i && Deduping(i, all)
        decreases n - i
      {
        i := DedupeOne(i, all);
      }
      SortedFromStrict(Entries(), all);
    }

    /** Maps the bytes of a backing file of whole pages; nothing is indexed yet. */
    constructor (img: seq<byte>, pagesize: nat)
      requires |img| > 0
      ensures this.pagesize == pagesize && file[..] == img && fresh(file)
      ensures space == 0 && index == [] && max == 0 && Mirrored() && fresh(cells)
    {
      this.pagesize := pagesize;
      space, index, n, max := 0, [], 0, 0;
      cells := new nat[0];
      file := new byte[|img|](k requires 0 <= k < |img| => img[k]);
    }

    /** The scan of store_file_open(): counts data records, stopping at one that is cut off. */
    method Scan() returns (offset: nat, n: nat)
      requires 0 < file.Length < U32 && Scannable(file[..], 0)
      ensures var end := ScanEnd(file[..], 0);
              ScanStops(file[..], end, offset) && Aligned(end) && Tiled(file[..], 0, end) && n == |Data(file[..], 0, end)|
    {
      hide Pages, Tiled, Data, RecSize, GapField;
      ghost var img := file[..];
      offset, n := 0, 0;
      ghost var o: nat := 0;
      TiledNil(img, 0);
      while offset < file.Length
        invariant o <= file.Length && Scannable(img, o) && ScanEnd(img, o) == ScanEnd(img, 0)
        invariant Aligned(o) && Tiled(img, 0, o) && n == |Data(img, 0, o)|
        invariant offset == o || (ScanEnd(img, 0) == o && Overhang(img, o) && offset == o + RecSize(img, o))
        decreases if offset < file.Length then file.Length - offset else 0
      {
        var recSz := RecSize(file[..], offset);
        TooBigExact(offset, file.Length, recSz);
        if recSz > file.Length { TooBigOver(offset, file.Length, recSz); }
        if TooBig(offset, file.Length, recSz) {
          break;
        }
        if offset + recSz <= file.Length {
          ScanOne(img, offset);
          AlignedSum(offset, recSz);
          o := offset + recSz;
        }
        if !IsGap(file[..], offset) {
          n := n + 1;
        }
        offset := offset + recSz;
      }
    }

    /** Builds the index over the whole records, which end at end, with at most one for each key. */
    method Load(offset: nat, ghost end: nat)
      requires Paged() && ScanStops(file[..], end, offset)
      requires Tiled(file[..], 0, end) && |Data(file[..], 0, end)| <= max
      requires forall kv :: kv in DataKvs(file[..], 0, end) ==> IsKeyValue(kv)
      modifies this, file, cells
      ensures file == old(file) && (cells == old(cells) || fresh(cells))
      ensures Valid() && Survives(Entries(), old(DataKvs(file[..], 0, end)))
      ensures forall es :: Sorted(es) && multiset(es) == multiset(old(DataKvs(file[..], 0, end))) ==> Entries() == es
    {
      hide Pages, Tiled, Data, DataKvs, Aligned, Kvs, Sorted, Survives, ByKey, Body, IsKeyValue;
      ghost var all := DataKvs(file[..], 0, end);
      PagesAligned(file.Length, pagesize);
      space := offset;
      Repack(end);
      LaidKvs(file[..], space, index);
      ghost var es0 := Entries();
      PermuteIn(es0, all);
      SurvivesPermute(es0, all);
      Dedupe();
      SurvivesTrans(Entries(), es0, all);
      forall es | Sorted(es) && multiset(es) == multiset(all) ensures Entries() == es {
        StrictFromPermutation(es0, es);
      }
    }

    /** store_file_open() over the bytes of a file that can be scanned and whose keys end with NUL. Null
        stands for a failed open. */
    static method Open(image: seq<byte>, pagesize: nat, indexOk: bool) returns (s: Store?)
      requires 0 < pagesize < U32 && Aligned(pagesize) && Pages(U32, pagesize)
      requires Scannable(Mapped(image, pagesize), 0)
      requires var img := Mapped(image, pagesize);
               Tiled(img, 0, ScanEnd(img, 0)) ==> forall kv :: kv in DataKvs(img, 0, ScanEnd(img, 0)) ==> 0 in kv
      ensures |image| < U32 - 1 && indexOk ==> s != null
      ensures s != null ==> fresh(s) && fresh(s.file) && fresh(s.cells) && s.pagesize == pagesize && s.Valid()
      ensures s != null ==> s.file.Length == MapSize(|image|, pagesize)
      ensures s != null ==>
                var img := Mapped(image, pagesize);
                Tiled(img, 0, ScanEnd(img, 0)) &&
                Survives(s.Entries(), DataKvs(img, 0, ScanEnd(img, 0))) &&
                forall es :: Sorted(es) && multiset(es) == multiset(DataKvs(img, 0, ScanEnd(img, 0))) ==> s.Entries() == es
    {
      hide Pages, Tiled, Data, DataKvs, Aligned, Kvs, Sorted, Survives, ByKey, Body, Scannable, ScanEnd;
      if |image| >= U32 - 1 {
        return null;
      }
      var t := new Store(Mapped(image, pagesize), pagesize);
      var offset, n := t.Scan();
      ghost var end := ScanEnd(t.file[..], 0);
      if n > 0 {
        var done := t.IndexEnsure(n - 1, indexOk);
        if !done {
          return null;
        }
      }
      DataKvsSizes(t.file[..], 0, end);
      t.Load(offset, end);
      s := t;
    }

    /** Opening an empty file: a valid store of nothing, which needs no index. */
    static method OpenEmpty(pagesize: nat) returns (s: Store?)
      requires 0 < pagesize < U32 && Aligned(pagesize) && Pages(U32, pagesize)
      ensures s != null && fresh(s) && fresh(s.file) && fresh(s.cells) && s.pagesize == pagesize && s.file.Length == pagesize
      ensures s.Valid() && s.Entries() == [] && s.Map() == map[]
    {
      hide Pages, Tiled, Data, DataKvs, Aligned, Kvs, Survives, ByKey, Body, Scannable, ScanEnd;
      EmptyScan(pagesize);
      s := Open([], pagesize, true);
      assert Sorted([]) && multiset([]) == multiset(DataKvs(Mapped([], pagesize), 0, pagesize));
      assert s.Entries() == [];
    }

    /** Closing and opening again: the same entries in the same order. */
    static method Reopen(s: Store, indexOk: bool) returns (t: Store?)
      requires s.Valid()
      ensures indexOk && s.file.Length < U32 - 1 ==> t != null
      ensures t != null ==> fresh(t) && fresh(t.file) && fresh(t.cells) && t.Valid() && t.Entries() == s.Entries() && t.Map() == s.Map()
      ensures t != null ==> t.pagesize == s.pagesize && t.file.Length == s.file.Length
    {
      hide Pages, Tiled, Data, DataKvs, Aligned, Kvs, Sorted, Survives, ByKey, Body, Scannable, ScanEnd, ToMap;
      ghost var img := s.file[..];
      MappedWhole(img, s.pagesize);
      ReopenScan(img, s.space, s.index);
      t := Open(s.file[..], s.pagesize, indexOk);
    }
  }

  /** The trimmed size leaves at least a page beyond space; when the sum wraps it is no size at all. */
  lemma {:induction false} TrimRoom(space: nat, page: nat, filesz: nat)
    requires 0 < page < U32 && Pages(U32, page) && space < filesz < U32 && Pages(filesz, page)
    ensures (space + page) % U32 == space + page
    ensures var r := RoundUp32((space + page) % U32, page); r == 0 || space + page <= r
  {
    PagesBelow(filesz, U32, page);
  }

  /** Well below 2^32, trimming makes the file smaller. */
  lemma {:induction false} TrimShrinks(space: nat, page: nat, filesz: nat)
    requires 0 < page < U32 && space < filesz < U32
    ensures filesz + 4 * page < U32 && filesz > RoundUp32((space + 3 * page) % U32, page) ==>
              RoundUp32((space + page) % U32, page) < filesz
  {
    if filesz + 4 * page < U32 {
      SmallMod(space + 3 * page);
      SmallMod(space + page);
      hide RoundUp32;
      RoundUpBounds(space + 3 * page, page);
      RoundUpBounds(space + page, page);
    }
  }

  /** Where trimming stops. */
  lemma {:induction false} TrimAim(space: nat, page: nat)
    requires 0 < page < U32
    ensures space + 4 * page < U32 ==>
              space + page <= RoundUp32((space + page) % U32, page) < space + 2 * page &&
              RoundUp32((space + 3 * page) % U32, page) < space + 4 * page
  {
    if space + 4 * page < U32 {
      SmallMod(space + 3 * page);
      SmallMod(space + page);
      hide RoundUp32;
      RoundUpBounds(space + 3 * page, page);
      RoundUpBounds(space + page, page);
    }
  }

  lemma {:induction false} SmallMod(n: nat)
    requires n < U32
    ensures n % U32 == n
  {
  }

  lemma {:induction false} RoundUpBounds(n: nat, page: nat)
    requires page > 0 && n + page - 1 < U32
    ensures n <= RoundUp32(n, page) < n + page
  {
  }
}
