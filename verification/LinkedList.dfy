/** The intrusive doubly-linked list of daemon/list.h. A back link is a pointer to the pointer that
    refers to the element, so pointers are objects here: a Slot. */
module LinkedList {

  /** A pointer variable: a list head, or the next field of an element. */
  class Slot<T> {
    var to: Node?<T>

    constructor ()
      ensures to == null
    {
      to := null;
    }
  }

  /** An element: what it holds, its next field, and the back link prevp. */
  class Node<T> {
    const item: T
    const next: Slot<T>
    var prevp: Slot<T>

    /** A new element is unlinked. */
    constructor (item: T)
      ensures this.item == item && fresh(next) && next.to == null && prevp == next
    {
      var s := new Slot();
      this.item := item;
      next, prevp := s, s;
    }

    /** The invariant that defines a linked element. */
    ghost predicate IsLinked()
      reads this, prevp
    {
      prevp.to == this
    }
  }

  predicate Distinct<T(==)>(s: seq<T>)
  {
    forall i, j :: 0 <= i < j < |s| ==> s[i] != s[j]
  }

  ghost function Inserted<T>(s: seq<T>, i: nat, x: T): (r: seq<T>)
    requires i <= |s|
    ensures |r| == |s| + 1
    ensures forall k :: 0 <= k < |r| ==> r[k] == if k < i then s[k] else if k == i then x else s[k - 1]
  {
    s[..i] + [x] + s[i..]
  }

  ghost function Removed<T>(s: seq<T>, i: nat): (r: seq<T>)
    requires i < |s|
    ensures |r| == |s| - 1
    ensures forall k :: 0 <= k < |r| ==> r[k] == if k < i then s[k] else s[k + 1]
  {
    s[..i] + s[i + 1..]
  }

  lemma {:induction false} InsertDistinct<T>(s: seq<T>, i: nat, x: T)
    requires i <= |s| && Distinct(s) && x !in s
    ensures Distinct(Inserted(s, i, x))
  {
  }

  lemma {:induction false} RemoveDistinct<T>(s: seq<T>, i: nat)
    requires i < |s| && Distinct(s)
    ensures Distinct(Removed(s, i)) && s[i] !in Removed(s, i)
  {
  }

  lemma {:induction false} InsertedIs<T>(s: seq<T>, i: nat, x: T)
    requires i <= |s|
    ensures var r := Inserted(s, i, x);
            |r| == |s| + 1 && r[i] == x && (forall k :: 0 <= k < i ==> r[k] == s[k]) &&
            forall k :: i < k < |r| ==> r[k] == s[k - 1]
  {
  }

  lemma {:induction false} RemovedIs<T>(s: seq<T>, i: nat)
    requires i < |s|
    ensures var r := Removed(s, i);
            |r| == |s| - 1 && (forall k :: 0 <= k < i ==> r[k] == s[k]) && forall k :: i <= k < |r| ==> r[k] == s[k + 1]
  {
  }

  /** Element i is between the pointer variables i and i + 1: *p->prevp == p, and the second is its own
      next field. */
  ghost predicate Between<T>(ss: seq<Slot<T>>, ns: seq<Node<T>>, i: nat)
    requires i < |ns| < |ss|
    reads ss[i], ns[i]
  {
    ss[i].to == ns[i] && ns[i].prevp == ss[i] && ns[i].next == ss[i + 1]
  }

  /** ss[0] leads through the elements ns and no others, by way of the pointer variables ss. */
  ghost predicate Linked<T>(ss: seq<Slot<T>>, ns: seq<Node<T>>)
    reads ss, ns
  {
    |ss| == |ns| + 1 && Distinct(ss) && Distinct(ns) &&
    (forall i :: 0 <= i < |ns| ==> Between(ss, ns, i)) &&
    ss[|ns|].to == null
  }

  lemma {:induction false} LinkedInvariant<T>(ss: seq<Slot<T>>, ns: seq<Node<T>>)
    requires Linked(ss, ns)
    ensures forall i :: 0 <= i < |ns| ==> ns[i].IsLinked()
  {
    forall i | 0 <= i < |ns| ensures ns[i].IsLinked() { assert Between(ss, ns, i); }
  }

  lemma {:induction false} Differ<T>(s: seq<T>, i: nat, j: nat)
    requires Distinct(s) && i < |s| && j < |s| && i != j
    ensures s[i] != s[j]
  {
  }

  /** INSERT(p, headp): headp may be the head or any next field of the list. */
  method Insert<T>(p: Node<T>, headp: Slot<T>, ghost ss: seq<Slot<T>>, ghost ns: seq<Node<T>>, ghost i: nat)
    requires Linked(ss, ns) && i <= |ns| && headp == ss[i] && p !in ns && p.next !in ss
    modifies p, p.next, headp, if headp.to == null then {} else {headp.to}
    ensures Linked(Inserted(ss, i + 1, p.next), Inserted(ns, i, p))
  {
    hide Inserted, Distinct;
    InsertDistinct(ss, i + 1, p.next);
    InsertDistinct(ns, i, p);
    InsertedIs(ss, i + 1, p.next);
    InsertedIs(ns, i, p);
    if i < |ns| { assert Between(ss, ns, i); }
    p.prevp := headp;
    p.next.to := headp.to;
    if p.next.to != null {
      p.next.to.prevp := p.next;
    }
    headp.to := p;
    ghost var ss', ns' := Inserted(ss, i + 1, p.next), Inserted(ns, i, p);
    forall k | 0 <= k < |ns'| ensures Between(ss', ns', k) {
      if k < i {
        assert old(Between(ss, ns, k));
        Differ(ss, k, i);
        if i < |ns| { Differ(ns, k, i); }
      } else if i + 1 < k {
        assert old(Between(ss, ns, k - 1));
        Differ(ss, k - 1, i);
        Differ(ns, k - 1, i);
      }
    }
    if i < |ns| { Differ(ss, |ns|, i); }
  }

  /** REMOVE(p) */
  method Remove<T>(p: Node<T>, ghost ss: seq<Slot<T>>, ghost ns: seq<Node<T>>, ghost i: nat)
    requires Linked(ss, ns) && i < |ns| && p == ns[i]
    modifies p.prevp, if p.next.to == null then {} else {p.next.to}
    ensures Linked(Removed(ss, i + 1), Removed(ns, i))
    ensures !p.IsLinked() && p !in Removed(ns, i) && p.next !in Removed(ss, i + 1)
  {
    hide Removed, Distinct;
    RemoveDistinct(ss, i + 1);
    RemoveDistinct(ns, i);
    RemovedIs(ss, i + 1);
    RemovedIs(ns, i);
    assert Between(ss, ns, i);
    Differ(ss, i, i + 1);
    if i + 1 < |ns| {
      assert Between(ss, ns, i + 1);
      Differ(ns, i, i + 1);
    }
    if p.next.to != null {
      p.next.to.prevp := p.prevp;
    }
    p.prevp.to := p.next.to;
    ghost var ss', ns' := Removed(ss, i + 1), Removed(ns, i);
    forall k | 0 <= k < |ns'| ensures Between(ss', ns', k) {
      if k < i {
        assert old(Between(ss, ns, k));
        Differ(ss, k, i);
        if i + 1 < |ns| { Differ(ns, k, i + 1); }
      } else {
        assert old(Between(ss, ns, k + 1));
        if k > i {
          Differ(ss, k + 1, i);
          Differ(ns, k + 1, i + 1);
        }
      }
    }
    Differ(ss, |ns|, i);
  }

  /** APPEND(p, tailp): the tail pointer variable moves on to the new element's next field. The program
      aborts exactly when the tail is not the end of a list. */
  method Append<T>(p: Node<T>, tail: Slot<T>, ghost ss: seq<Slot<T>>, ghost ns: seq<Node<T>>) returns (aborts: bool, tail': Slot<T>)
    requires tail.to == null ==> Linked(ss, ns) && tail == ss[|ns|] && p !in ns && p.next !in ss
    modifies p, p.next, tail
    ensures aborts <==> old(tail.to) != null
    ensures aborts ==> tail' == tail && unchanged(p, p.next, tail)
    ensures !aborts ==> Linked(ss + [p.next], ns + [p]) && tail' == p.next
  {
    hide Inserted, Distinct;
    if tail.to != null {
      return true, tail;
    }
    InsertDistinct(ss, |ss|, p.next);
    InsertDistinct(ns, |ns|, p);
    InsertedLast(ss, p.next);
    InsertedLast(ns, p);
    tail.to := p;
    p.prevp := tail;
    tail' := p.next;
    p.next.to := null;
    aborts := false;
    ghost var ss', ns' := ss + [p.next], ns + [p];
    forall k | 0 <= k < |ns'| ensures Between(ss', ns', k) {
      if k < |ns| {
        assert old(Between(ss, ns, k));
        Differ(ss, k, |ns|);
      }
    }
  }

  lemma {:induction false} InsertedLast<T>(s: seq<T>, x: T)
    ensures Inserted(s, |s|, x) == s + [x]
  {
  }

  /** A list with a tail pointer, as bufcmds and bufcmd_tail in daemon/infod.c: only Begin sets the tail. */
  class TailList<T> {
    const head: Slot<T>
    var tail: Slot<T>
    /** The elements, the pointer variables, and all objects. */
    ghost var ns: seq<Node<T>>
    ghost var ss: seq<Slot<T>>
    ghost var repr: set<object>
    /** Whether the tail is the end of the list, or was set to the head of a list with elements. */
    ghost var open: bool
    ghost var jammed: bool

    ghost predicate Valid()
      reads this, repr
    {
      this in repr && (forall i :: 0 <= i < |ns| ==> ns[i] in repr) && (forall i :: 0 <= i < |ss| ==> ss[i] in repr) &&
      Linked(ss, ns) && ss[0] == head && (open ==> tail == ss[|ns|]) && (jammed ==> tail == head && ns != [])
    }

    constructor ()
      ensures Valid() && ns == [] && fresh(repr)
    {
      head := new Slot();
      tail := head;
      ns, ss, open, jammed := [], [head], false, false;
      repr := {this, head};
    }

    /** CMD_BEGIN: the tail is set to the head. */
    method Begin()
      requires Valid()
      modifies this
      ensures Valid() && unchanged(`ns, `ss, `repr) && (if ns == [] then open else jammed)
    {
      tail := head;
      open, jammed := ns == [], ns != [];
    }

    /** APPEND at the tail that Begin set: it aborts exactly if the list had elements then. */
    method Add(p: Node<T>) returns (aborts: bool)
      requires Valid() && (open || jammed) && p !in repr && p.next !in repr
      modifies repr, p, p.next
      ensures Valid() && open == old(open) && (aborts <==> !open)
      ensures if aborts then unchanged(`ns, `repr) else ns == old(ns) + [p] && repr == old(repr) + {p, p.next}
    {
      HeadIs(ss, ns);
      aborts, tail := Append(p, tail, ss, ns);
      if !aborts {
        ns, ss, jammed := ns + [p], ss + [p.next], false;
        repr := repr + {p, p.next};
      }
    }

    /** Playback takes the first element; this makes the tail stale. */
    method Take() returns (p: Node?<T>)
      requires Valid()
      modifies repr
      ensures Valid() && repr == old(repr) && if p == null then ns == old(ns) == [] else old(ns) == [p] + ns
      ensures p != null ==> !open && !p.IsLinked()
    {
      hide Linked, Removed;
      HeadIs(ss, ns);
      p := head.to;
      if p != null {
        FirstLinks(ss, ns);
        RemovedIs(ss, 1);
        RemovedIs(ns, 0);
        Remove(p, ss, ns, 0);
        ns, ss, open, jammed := Removed(ns, 0), Removed(ss, 1), false, false;
      }
    }
  }

  lemma {:induction false} HeadIs<T>(ss: seq<Slot<T>>, ns: seq<Node<T>>)
    requires Linked(ss, ns)
    ensures |ss| == |ns| + 1 && ss[0].to == if ns == [] then null else ns[0]
  {
    if ns != [] { assert Between(ss, ns, 0); }
  }

  /** What REMOVE of the first element writes to. */
  lemma {:induction false} FirstLinks<T>(ss: seq<Slot<T>>, ns: seq<Node<T>>)
    requires Linked(ss, ns) && ns != []
    ensures |ss| == |ns| + 1 && ns[0].prevp == ss[0]
    ensures ns[0].next.to == if |ns| == 1 then null else ns[1]
  {
    assert Between(ss, ns, 0);
    if |ns| > 1 { assert Between(ss, ns, 1); }
  }
}
