/** A sequence of keys beside a sequence of values, read as a finite map. */
module Assoc {
  ghost predicate Distinct<K>(ks: seq<K>)
  {
    forall i, j :: 0 <= i < j < |ks| ==> ks[i] != ks[j]
  }

  ghost function ToMap<K, V>(ks: seq<K>, vs: seq<V>): (r: map<K, V>)
    requires |ks| == |vs|
  {
    var n := |ks| - 1;
    if ks == [] then map[] else ToMap(ks[..n], vs[..n])[ks[n] := vs[n]]
  }

  /** m holds exactly the pairs <ks[i], vs[i]>. */
  ghost predicate Holds<K, V>(m: map<K, V>, ks: seq<K>, vs: seq<V>)
  {
    |ks| == |vs| &&
    (forall i :: 0 <= i < |ks| ==> ks[i] in m && m[ks[i]] == vs[i]) &&
    (forall k :: k in m ==> k in ks)
  }

  lemma {:induction false} MapAt<K, V>(ks: seq<K>, vs: seq<V>)
    requires |ks| == |vs| && Distinct(ks)
    ensures Holds(ToMap(ks, vs), ks, vs)
    ensures |ToMap(ks, vs)| == |ks|
  {
    if ks != [] {
      var n := |ks| - 1;
      var fk, fv := ks[..n], vs[..n];
      MapAt(fk, fv);
      var m := ToMap(fk, fv);
      assert ToMap(ks, vs) == m[ks[n] := vs[n]];
      assert ToMap(ks, vs).Keys == m.Keys + {ks[n]};
      hide ToMap;
      InsertHolds(m, fk, fv, n, ks[n], vs[n]);
      PutLast(ks);
      PutLast(vs);
    }
  }

  lemma {:induction false} PutLast<T>(s: seq<T>)
    requires s != []
    ensures s[..|s| - 1][..|s| - 1] + [s[|s| - 1]] + s[..|s| - 1][|s| - 1..] == s
  {
  }

  lemma {:induction false} HoldsUnique<K, V>(a: map<K, V>, b: map<K, V>, ks: seq<K>, vs: seq<V>)
    requires Holds(a, ks, vs) && Holds(b, ks, vs)
    ensures a == b
  {
    assert a.Keys == b.Keys;
  }

  lemma {:induction false} MapReplace<K, V>(ks: seq<K>, vs: seq<V>, i: nat, v: V)
    requires |ks| == |vs| && Distinct(ks) && i < |ks|
    ensures ToMap(ks, vs[i := v]) == ToMap(ks, vs)[ks[i] := v]
  {
    MapAt(ks, vs);
    MapAt(ks, vs[i := v]);
    HoldsUnique(ToMap(ks, vs[i := v]), ToMap(ks, vs)[ks[i] := v], ks, vs[i := v]);
  }

  lemma {:induction false} RemoveHolds<K, V>(m: map<K, V>, ks: seq<K>, vs: seq<V>, i: nat)
    requires Holds(m, ks, vs) && Distinct(ks) && i < |ks|
    ensures Distinct(ks[..i] + ks[i + 1..])
    ensures Holds(m - {ks[i]}, ks[..i] + ks[i + 1..], vs[..i] + vs[i + 1..])
  {
    var rk, rv := ks[..i] + ks[i + 1..], vs[..i] + vs[i + 1..];
    var m' := m - {ks[i]};
    forall j | 0 <= j < |rk| ensures rk[j] in m' && m'[rk[j]] == rv[j] {
      var j' := if j < i then j else j + 1;
      assert rk[j] == ks[j'] && rv[j] == vs[j'];
    }
    forall k | k in m' ensures k in rk {
      var j :| 0 <= j < |ks| && ks[j] == k;
      assert rk[if j < i then j else j - 1] == k;
    }
  }

  lemma {:induction false} MapRemove<K, V>(ks: seq<K>, vs: seq<V>, i: nat)
    requires |ks| == |vs| && Distinct(ks) && i < |ks|
    ensures ToMap(ks[..i] + ks[i + 1..], vs[..i] + vs[i + 1..]) == ToMap(ks, vs) - {ks[i]}
  {
    MapAt(ks, vs);
    var m := ToMap(ks, vs);
    RemoveHolds(m, ks, vs, i);
    var rk, rv := ks[..i] + ks[i + 1..], vs[..i] + vs[i + 1..];
    MapAt(rk, rv);
    HoldsUnique(ToMap(rk, rv), m - {ks[i]}, rk, rv);
  }

  lemma {:induction false} InsertHolds<K, V>(m: map<K, V>, ks: seq<K>, vs: seq<V>, i: nat, k: K, v: V)
    requires Holds(m, ks, vs) && Distinct(ks) && i <= |ks| && k !in ks
    ensures Distinct(ks[..i] + [k] + ks[i..])
    ensures Holds(m[k := v], ks[..i] + [k] + ks[i..], vs[..i] + [v] + vs[i..])
  {
    var rk, rv := ks[..i] + [k] + ks[i..], vs[..i] + [v] + vs[i..];
    var m' := m[k := v];
    forall j | 0 <= j < |rk| ensures rk[j] in m' && m'[rk[j]] == rv[j] && (rk[j] == k <==> j == i) {
      if j != i {
        var j' := if j < i then j else j - 1;
        assert rk[j] == ks[j'] && rv[j] == vs[j'];
        assert ks[j'] in ks;
      }
    }
    forall x | x in m' ensures x in rk {
      if x == k {
        assert rk[i] == k;
      } else {
        var j :| 0 <= j < |ks| && ks[j] == x;
        assert rk[if j < i then j else j + 1] == x;
      }
    }
  }

  lemma {:induction false} MapInsert<K, V>(ks: seq<K>, vs: seq<V>, i: nat, k: K, v: V)
    requires |ks| == |vs| && Distinct(ks) && i <= |ks| && k !in ks
    ensures ToMap(ks[..i] + [k] + ks[i..], vs[..i] + [v] + vs[i..]) == ToMap(ks, vs)[k := v]
  {
    MapAt(ks, vs);
    var m := ToMap(ks, vs);
    InsertHolds(m, ks, vs, i, k, v);
    var rk, rv := ks[..i] + [k] + ks[i..], vs[..i] + [v] + vs[i..];
    MapAt(rk, rv);
    HoldsUnique(ToMap(rk, rv), m[k := v], rk, rv);
  }
}

/** The sorted key index seen as a value: a sequence of <key NUL value> byte strings in strcmp
    order, and the finite map it stands for. */
module Entries {
  import opened Bytes
  import Assoc

  /** Keys and what is stored under them. */
  type Contents = map<seq<byte>, seq<byte>>

  /** The key of a keyvalue string. */
  function KeyOf(kv: seq<byte>): (r: seq<byte>)
    ensures 0 !in r
  {
    CStr(kv)
  }

  /** What store_put() demands of its argument: a uint16 size, and a NUL that ends the key. */
  predicate IsKeyValue(kv: seq<byte>)
  {
    |kv| < 0x10000 && 0 in kv
  }

  /** Strictly ascending keys. */
  ghost predicate Sorted(es: seq<seq<byte>>)
  {
    (forall i :: 0 <= i < |es| ==> IsKeyValue(es[i])) &&
    forall i, j :: 0 <= i < j < |es| ==> Less(KeyOf(es[i]), KeyOf(es[j]))
  }

  ghost function Keys(es: seq<seq<byte>>): (r: seq<seq<byte>>)
    ensures |r| == |es|
    ensures forall i :: 0 <= i < |es| ==> r[i] == KeyOf(es[i])
  {
    seq(|es|, i requires 0 <= i < |es| => KeyOf(es[i]))
  }

  /** The finite map a sorted index stands for. */
  ghost function ToMap(es: seq<seq<byte>>): (r: map<seq<byte>, seq<byte>>)
  {
    Assoc.ToMap(Keys(es), es)
  }

  /** i is where key is, or where it would go. */
  ghost predicate IsSlot(es: seq<seq<byte>>, key: seq<byte>, i: nat)
  {
    i <= |es| &&
    (forall j :: 0 <= j < i ==> Less(KeyOf(es[j]), key)) &&
    (forall j :: i <= j < |es| ==> !Less(KeyOf(es[j]), key))
  }

  /** Distinct positions of a sorted index hold distinct keys. */
  lemma {:induction false} SortedDistinct(es: seq<seq<byte>>)
    requires Sorted(es)
    ensures Assoc.Distinct(Keys(es))
  {
    forall i, j | 0 <= i < j < |es| ensures KeyOf(es[i]) != KeyOf(es[j]) {
      LessAsymmetric(KeyOf(es[i]), KeyOf(es[j]));
    }
  }

  lemma {:induction false} ToMapKeys(es: seq<seq<byte>>)
    requires Sorted(es)
    ensures forall k :: k in ToMap(es) <==> k in Keys(es)
    ensures forall i :: 0 <= i < |es| ==> KeyOf(es[i]) in ToMap(es) && ToMap(es)[KeyOf(es[i])] == es[i]
    ensures |ToMap(es)| == |es|
  {
    SortedDistinct(es);
    Assoc.MapAt(Keys(es), es);
    forall i | 0 <= i < |es|
      ensures KeyOf(es[i]) in ToMap(es) && ToMap(es)[KeyOf(es[i])] == es[i]
    {
      assert Keys(es)[i] == KeyOf(es[i]);
    }
  }

  /** No other place has the key. */
  lemma {:induction false} SlotOnly(es: seq<seq<byte>>, key: seq<byte>, i: nat)
    requires Sorted(es) && IsSlot(es, key, i)
    ensures forall j :: 0 <= j < |es| && KeyOf(es[j]) == key ==> j == i
  {
    hide KeyOf, Less;
    LessIrreflexive(key);
    forall j | 0 <= j < |es| && j != i ensures KeyOf(es[j]) != key {
      if i < j { assert Less(KeyOf(es[i]), KeyOf(es[j])); }
    }
  }

  /** A slot finds the key exactly when the map has it. */
  lemma {:induction false} SlotFinds(es: seq<seq<byte>>, key: seq<byte>, i: nat)
    requires Sorted(es) && IsSlot(es, key, i)
    ensures key in ToMap(es) <==> i < |es| && KeyOf(es[i]) == key
    ensures i < |es| && KeyOf(es[i]) == key ==> ToMap(es)[key] == es[i]
    ensures i < |es| && KeyOf(es[i]) != key ==> Less(key, KeyOf(es[i]))
  {
    ToMapKeys(es);
    SlotOnly(es, key, i);
    if key in ToMap(es) {
      var j :| 0 <= j < |es| && Keys(es)[j] == key;
      assert KeyOf(es[j]) == key;
    }
    if i < |es| { LessTotal(key, KeyOf(es[i])); }
  }

  /** Keys below and above a slot. */
  lemma {:induction false} SlotOrder(es: seq<seq<byte>>, key: seq<byte>, i: nat)
    requires Sorted(es) && IsSlot(es, key, i)
    ensures forall j :: i < j < |es| ==> Less(key, KeyOf(es[j]))
    ensures i < |es| && KeyOf(es[i]) != key ==> Less(key, KeyOf(es[i]))
  {
    SlotFinds(es, key, i);
    forall j | i < j < |es| ensures Less(key, KeyOf(es[j])) {
      if KeyOf(es[i]) != key {
        LessTransitive(key, KeyOf(es[i]), KeyOf(es[j]));
      }
    }
  }

  /** Search steps: what one comparison says about a whole side of a sorted index. */
  lemma {:induction false} BelowSlot(es: seq<seq<byte>>, key: seq<byte>, m: nat)
    requires Sorted(es) && m < |es| && key != KeyOf(es[m]) && !Less(key, KeyOf(es[m]))
    ensures forall j :: 0 <= j <= m ==> Less(KeyOf(es[j]), key)
  {
    LessTotal(key, KeyOf(es[m]));
    forall j | 0 <= j <= m ensures Less(KeyOf(es[j]), key) {
      if j < m { LessTransitive(KeyOf(es[j]), KeyOf(es[m]), key); }
    }
  }

  lemma {:induction false} AboveSlot(es: seq<seq<byte>>, key: seq<byte>, m: nat)
    requires Sorted(es) && m < |es| && Less(key, KeyOf(es[m]))
    ensures forall j :: m <= j < |es| ==> !Less(KeyOf(es[j]), key)
  {
    forall j | m <= j < |es| ensures !Less(KeyOf(es[j]), key) {
      if m < j { LessTransitive(key, KeyOf(es[m]), KeyOf(es[j])); }
      LessAsymmetric(key, KeyOf(es[j]));
    }
  }

  lemma {:induction false} EqualSlot(es: seq<seq<byte>>, key: seq<byte>, m: nat)
    requires Sorted(es) && m < |es| && key == KeyOf(es[m])
    ensures IsSlot(es, key, m)
  {
    LessIrreflexive(key);
    forall j | m < j < |es| ensures !Less(KeyOf(es[j]), key) {
      LessAsymmetric(key, KeyOf(es[j]));
    }
  }

  lemma {:induction false} InsertFilled(es: seq<seq<byte>>, i: nat, junk: seq<byte>, kv: seq<byte>)
    requires i <= |es|
    ensures (es[..i] + [junk] + es[i..])[i := kv] == es[..i] + [kv] + es[i..]
  {
  }

  lemma {:induction false} ReplaceUpdates(es: seq<seq<byte>>, i: nat, kv: seq<byte>)
    requires Sorted(es) && i < |es| && IsKeyValue(kv) && KeyOf(kv) == KeyOf(es[i])
    ensures Sorted(es[i := kv])
    ensures ToMap(es[i := kv]) == ToMap(es)[KeyOf(kv) := kv]
  {
    hide Less, CStr, Assoc.ToMap;
    var r := es[i := kv];
    assert forall j :: 0 <= j < |es| ==> KeyOf(r[j]) == KeyOf(es[j]);
    assert Keys(r) == Keys(es);
    SortedDistinct(es);
    Assoc.MapReplace(Keys(es), es, i, kv);
  }

  lemma {:induction false} InsertSorted(es: seq<seq<byte>>, i: nat, kv: seq<byte>)
    requires Sorted(es) && IsSlot(es, KeyOf(kv), i) && IsKeyValue(kv) && KeyOf(kv) !in ToMap(es)
    ensures Sorted(es[..i] + [kv] + es[i..])
  {
    hide Less, KeyOf, ToMap;
    var r := es[..i] + [kv] + es[i..];
    SlotFinds(es, KeyOf(kv), i);
    SlotOrder(es, KeyOf(kv), i);
    forall a | 0 <= a < |r| ensures IsKeyValue(r[a]) {
      assert r[a] == if a < i then es[a] else if a == i then kv else es[a - 1];
    }
    forall a, b | 0 <= a < b < |r| ensures Less(KeyOf(r[a]), KeyOf(r[b])) {
      if a == i {
        assert r[a] == kv && r[b] == es[b - 1];
      } else if b == i {
        assert r[a] == es[a] && r[b] == kv;
      } else {
        var a', b' := if a < i then a else a - 1, if b < i then b else b - 1;
        assert r[a] == es[a'] && r[b] == es[b'] && a' < b';
      }
    }
  }

  lemma {:induction false} InsertUpdates(es: seq<seq<byte>>, i: nat, kv: seq<byte>)
    requires Sorted(es) && IsSlot(es, KeyOf(kv), i) && IsKeyValue(kv) && KeyOf(kv) !in ToMap(es)
    ensures Sorted(es[..i] + [kv] + es[i..])
    ensures ToMap(es[..i] + [kv] + es[i..]) == ToMap(es)[KeyOf(kv) := kv]
  {
    hide Less, KeyOf, Assoc.ToMap;
    InsertSorted(es, i, kv);
    ToMapKeys(es);
    SortedDistinct(es);
    var ks := Keys(es);
    assert Keys(es[..i] + [kv] + es[i..]) == ks[..i] + [KeyOf(kv)] + ks[i..];
    Assoc.MapInsert(ks, es, i, KeyOf(kv), kv);
  }

  lemma {:induction false} RemoveSorted(es: seq<seq<byte>>, i: nat)
    requires Sorted(es) && i < |es|
    ensures Sorted(es[..i] + es[i + 1..])
  {
    var r := es[..i] + es[i + 1..];
    assert forall j :: 0 <= j < |r| ==> r[j] == es[if j < i then j else j + 1];
  }

  lemma {:induction false} RemoveUpdates(es: seq<seq<byte>>, i: nat)
    requires Sorted(es) && i < |es|
    ensures Sorted(es[..i] + es[i + 1..])
    ensures ToMap(es[..i] + es[i + 1..]) == ToMap(es) - {KeyOf(es[i])}
  {
    hide Less, KeyOf, Assoc.ToMap;
    RemoveSorted(es, i);
    SortedDistinct(es);
    var ks := Keys(es);
    assert Keys(es[..i] + es[i + 1..]) == ks[..i] + ks[i + 1..];
    Assoc.MapRemove(ks, es, i);
  }

  /** The entries under other keys. */
  ghost function Others(es: seq<seq<byte>>, key: seq<byte>): (r: seq<seq<byte>>)
  {
    if es == [] then []
    else
      var n := |es| - 1;
      Others(es[..n], key) + if KeyOf(es[n]) == key then [] else [es[n]]
  }

  lemma {:induction false} OthersAll(es: seq<seq<byte>>, key: seq<byte>)
    requires forall j :: 0 <= j < |es| ==> KeyOf(es[j]) != key
    ensures Others(es, key) == es
  {
    hide KeyOf;
    if es != [] { OthersAll(es[..|es| - 1], key); }
  }

  lemma {:induction false} OthersJoin(a: seq<seq<byte>>, b: seq<seq<byte>>, key: seq<byte>)
    ensures Others(a + b, key) == Others(a, key) + Others(b, key)
    decreases |b|
  {
    hide KeyOf;
    if b == [] {
      assert a + b == a;
    } else {
      var n := |b| - 1;
      OthersJoin(a, b[..n], key);
      assert (a + b)[..|a + b| - 1] == a + b[..n];
    }
  }

  /** A slot separates an entry from the others. */
  lemma {:induction false} OthersSlot(es: seq<seq<byte>>, key: seq<byte>, i: nat)
    requires Sorted(es) && IsSlot(es, key, i)
    ensures Others(es, key) == if i < |es| && KeyOf(es[i]) == key then es[..i] + es[i + 1..] else es
  {
    hide KeyOf, Others, Less;
    SlotOnly(es, key, i);
    if i < |es| && KeyOf(es[i]) == key {
      OthersAll(es[..i], key);
      OthersAll(es[i + 1..], key);
      OthersJoin(es[..i], [es[i]], key);
      OthersJoin(es[..i + 1], es[i + 1..], key);
      OthersNone(es[i], key);
      assert es == es[..i + 1] + es[i + 1..] && es[..i + 1] == es[..i] + [es[i]];
    } else {
      OthersAll(es, key);
    }
  }

  lemma {:induction false} OthersNone(kv: seq<byte>, key: seq<byte>)
    requires KeyOf(kv) == key
    ensures Others([kv], key) == []
  {
    assert [kv][..0] == [];
  }

  /** Sorted arrangements of one collection start with the same entry. */
  lemma {:induction false} SortedHead(a: seq<seq<byte>>, b: seq<seq<byte>>)
    requires Sorted(a) && Sorted(b) && multiset(a) == multiset(b) && a != []
    ensures b != [] && a[0] == b[0]
  {
    assert a[0] in multiset(b);
    assert b[0] in multiset(b);
    assert b[0] in multiset(a);
    var i :| 0 <= i < |b| && b[i] == a[0];
    var j :| 0 <= j < |a| && a[j] == b[0];
    if i != 0 && j != 0 {
      LessAsymmetric(KeyOf(a[0]), KeyOf(a[j]));
    }
  }

  /** There is only one sorted arrangement of a collection of entries. */
  lemma {:induction false} SortedUnique(a: seq<seq<byte>>, b: seq<seq<byte>>)
    requires Sorted(a) && Sorted(b) && multiset(a) == multiset(b)
    ensures a == b
  {
    if a == [] {
      assert |multiset(b)| == |b|;
    } else {
      SortedHead(a, b);
      TailMultiset(a);
      TailMultiset(b);
      SortedTail(a);
      SortedTail(b);
      SortedUnique(a[1..], b[1..]);
      assert a == [a[0]] + a[1..] && b == [b[0]] + b[1..];
    }
  }

  lemma {:induction false} SortedTail(a: seq<seq<byte>>)
    requires Sorted(a) && a != []
    ensures Sorted(a[1..])
  {
  }

  lemma {:induction false} TailMultiset<T>(a: seq<T>)
    requires a != []
    ensures multiset(a[1..]) == multiset(a) - multiset{a[0]}
  {
    assert a == [a[0]] + a[1..];
  }

  /** Iterating the index yields every key of the map exactly once, in ascending order: of two keys in a row
      the first position at which they differ decides. */
  lemma {:induction false} IterationVisitsMap(es: seq<seq<byte>>)
    requires Sorted(es)
    ensures forall i, j :: 0 <= i < j < |es| ==> Precedes(KeyOf(es[i]), KeyOf(es[j]))
    ensures |ToMap(es)| == |es|
    ensures forall k :: k in ToMap(es) ==>
              exists i :: 0 <= i < |es| && es[i] == ToMap(es)[k] && KeyOf(es[i]) == k &&
                          forall j :: 0 <= j < |es| && KeyOf(es[j]) == k ==> j == i
  {
    forall i, j | 0 <= i < j < |es| ensures Precedes(KeyOf(es[i]), KeyOf(es[j])) {
      LessIs(KeyOf(es[i]), KeyOf(es[j]));
    }
    ToMapKeys(es);
    SortedDistinct(es);
    forall k | k in ToMap(es)
      ensures exists i :: 0 <= i < |es| && es[i] == ToMap(es)[k] && KeyOf(es[i]) == k &&
                          forall j :: 0 <= j < |es| && KeyOf(es[j]) == k ==> j == i
    {
      var i :| 0 <= i < |es| && Keys(es)[i] == k;
      forall j | 0 <= j < |es| && KeyOf(es[j]) == k ensures j == i {
        assert Keys(es)[j] == Keys(es)[i];
      }
      assert es[i] == ToMap(es)[k];
    }
  }

  lemma {:induction false} TopKey(a: seq<seq<byte>>, b: seq<seq<byte>>)
    requires Sorted(a) && Sorted(b) && ToMap(a) == ToMap(b) && a != [] && b != []
    ensures a[|a| - 1] == b[|b| - 1]
  {
    hide Less, KeyOf, ToMap;
    ToMapKeys(a);
    ToMapKeys(b);
    var x, y := a[|a| - 1], b[|b| - 1];
    assert KeyOf(x) in ToMap(b) && KeyOf(y) in ToMap(a);
    var i :| 0 <= i < |b| && Keys(b)[i] == KeyOf(x);
    var j :| 0 <= j < |a| && Keys(a)[j] == KeyOf(y);
    if KeyOf(x) != KeyOf(y) {
      LessAsymmetric(KeyOf(x), KeyOf(y));
    }
  }

  /** There is only one sorted listing of a map. */
  lemma {:induction false} ListingUnique(a: seq<seq<byte>>, b: seq<seq<byte>>)
    requires Sorted(a) && Sorted(b) && ToMap(a) == ToMap(b)
    ensures a == b
    decreases |a|
  {
    hide Less, KeyOf, ToMap, Sorted;
    ToMapKeys(a);
    ToMapKeys(b);
    if a != [] {
      assert b != [];
      TopKey(a, b);
      var m, n := |a| - 1, |b| - 1;
      RemoveUpdates(a, m);
      RemoveUpdates(b, n);
      assert a[..m] + a[m + 1..] == a[..m] && b[..n] + b[n + 1..] == b[..n];
      ListingUnique(a[..m], b[..n]);
      assert a == a[..m] + [a[m]] && b == b[..n] + [b[n]];
    }
  }
}
