/**
 The entries and the intrusive doubly linked list of lsm/kvsm.

 The list leaves the outward link of an end stale when that end is removed, so its invariant
 speaks of the inner links only; whether an end's outward link is clear is a separate fact,
 and each operation says exactly when it holds.
 */
module TtlList {
  import opened Wrappers
  import opened Index

  class Entry<V> {
    var key: Option<Key>
    var expireAt: int
    var p: Option<V>
    var prev: Entry?<V>
    var next: Entry?<V>

    constructor ()
      ensures key == None && expireAt == 0 && p == None && prev == null && next == null
    {
      key, expireAt, p, prev, next := None, 0, None, null, null;
    }

    method SwapValue(v: V) returns (previous: Option<V>)
      modifies this`p
      ensures previous == old(p) && p == Some(v)
    {
      previous := p;
      p := Some(v);
    }
  }

  class LinkedListTTL<V> {
    var root: Entry?<V>
    var last: Entry?<V>
    var size: int
    ghost var elems: seq<Entry<V>>

    /** Neighbours in q link to each other. */
    static ghost predicate Linked(q: seq<Entry<V>>)
      reads q`prev, q`next
    {
      && (forall i {:trigger q[i].next} :: 0 <= i < |q| - 1 ==> q[i].next == q[i + 1])
      && (forall i {:trigger q[i].prev} :: 0 < i < |q| ==> q[i].prev == q[i - 1])
    }

    /** root, last and the inner links spell out q. */
    ghost predicate Chained(q: seq<Entry<V>>)
      reads this`root, this`last, q`prev, q`next
    {
      && NoDup(q)
      && (q == [] ==> root == null && last == null)
      && (q != [] ==> root == q[0] && last == q[|q| - 1])
      && Linked(q)
    }

    ghost predicate Represents(q: seq<Entry<V>>)
      reads this`root, this`last, this`size, q`prev, q`next
    {
      size == |q| && Chained(q)
    }

    ghost predicate Valid()
      reads this`root, this`last, this`size, this`elems, elems`prev, elems`next
    {
      Represents(elems)
    }

    /** The last element's next link is clear: a forward walk ends there. */
    ghost predicate TailClear()
      reads this`elems, elems`next
    {
      elems != [] ==> elems[|elems| - 1].next == null
    }

    /** The first element's prev link is clear: a backward walk ends there. */
    ghost predicate HeadClear()
      reads this`elems, elems`prev
    {
      elems != [] ==> elems[0].prev == null
    }

    /** The list is q, well linked, and a forward walk ends. */
    ghost predicate Holds(q: seq<Entry<V>>)
      reads this`root, this`last, this`size, this`elems, q`prev, q`next
    {
      elems == q && Valid() && TailClear()
    }

    /** What is done elsewhere does not disturb the list. */
    twostate lemma HoldsStill(q: seq<Entry<V>>)
      requires old(Holds(q)) && unchanged(this)
      requires forall i :: 0 <= i < |q| ==> q[i].prev == old(q[i].prev) && q[i].next == old(q[i].next)
      ensures Holds(q)
    {
    }

    constructor ()
      ensures Valid() && elems == []
    {
      root, last, size, elems := null, null, 0, [];
    }

    method Prev(e: Entry?<V>) returns (r: Entry?<V>)
      ensures r == if e == null then last else e.prev
    {
      if e == null {
        return last;
      }
      return e.prev;
    }

    method Next(e: Entry?<V>) returns (r: Entry?<V>)
      ensures r == if e == null then root else e.next
    {
      if e == null {
        return root;
      }
      return e.next;
    }

    method Add(e: Entry<V>)
      requires Valid() && e !in elems
      modifies this`root, this`last, this`size, this`elems, e`prev, e`next, (if last == null then {} else {last})`next
      ensures Valid() && elems == old(elems) + [e]
      ensures TailClear()
      ensures HeadClear() <==> old(HeadClear())
    {
      size := size + 1;
      var currLast := last;
      if root == null {
        root := e;
        e.prev := null;
        e.next := null;
      } else {
        e.prev := currLast;
        e.next := null;
        currLast.next := e;
      }
      last := e;
      elems := elems + [e];
    }

    /**
     Removes exactly e. Removing the head keeps the tail clear; removing the last of several
     leaves the new last element pointing at e.
     */
    method Remove(e: Entry<V>) returns (ghost k: nat)
      requires Valid() && e in elems
      modifies this`root, this`last, this`size, this`elems, elems`prev, elems`next
      ensures k < |old(elems)| && old(elems)[k] == e
      ensures Valid() && elems == old(elems)[..k] + old(elems)[k + 1..]
      ensures e.prev == null && e.next == null
      ensures TailClear() <==> elems == [] || (k < |elems| && old(TailClear()))
      ensures 0 < k == |elems| ==> elems[k - 1].next == e
      ensures HeadClear() <==> elems == [] || (k > 0 && old(HeadClear()))
      ensures k == 0 && elems != [] ==> elems[0].prev == e
    {
      k :| 0 <= k < |elems| && elems[k] == e;
      Detach(e, k);
      Unhook(e);
    }

    static function Without(q: seq<Entry<V>>, k: nat): seq<Entry<V>>
      requires k < |q|
    {
      q[..k] + q[k + 1..]
    }

    static lemma WithoutEnds(q: seq<Entry<V>>)
      requires q != []
      ensures Without(q, 0) == q[1..] && Without(q, |q| - 1) == q[..|q| - 1]
    {
    }

    method Detach(e: Entry<V>, ghost k: nat)
      requires Valid() && k < |elems| && elems[k] == e
      modifies this`root, this`last, this`size, this`elems, elems`prev, elems`next
      ensures Valid() && elems == Without(old(elems), k)
      ensures elems != [] ==>
                && elems[0].prev == (if k > 0 then old(elems[0].prev) else e)
                && elems[|elems| - 1].next == (if k < |elems| then old(elems[|elems| - 1].next) else e)
    {
      size := size - 1;
      if size == 0 {
        root := null;
        last := null;
        elems := [];
        LinkedFew(elems);
      } else if root == e {
        EndsOnly(e, k);
        hide LinkedListTTL.Linked, LinkedListTTL.Without;
        Behead(e);
      } else if last == e {
        EndsOnly(e, k);
        hide LinkedListTTL.Linked, LinkedListTTL.Without;
        Curtail(e);
      } else {
        hide LinkedListTTL.Linked, LinkedListTTL.Without;
        Bypass(e, k);
      }
    }

    lemma EndsOnly(e: Entry<V>, k: nat)
      requires Chained(elems) && k < |elems| && elems[k] == e
      ensures root == e ==> k == 0
      ensures last == e ==> k == |elems| - 1
    {
    }

    static lemma LinkedFew(q: seq<Entry<V>>)
      requires |q| <= 1
      ensures Linked(q)
    {
    }

    /** The deferred clearing of the removed entry's links. */
    method Unhook(e: Entry<V>)
      requires Valid() && e !in elems
      modifies e`prev, e`next
      ensures Valid() && e.prev == null && e.next == null
      ensures elems != [] ==> elems[0].prev == old(elems[0].prev)
      ensures elems != [] ==> elems[|elems| - 1].next == old(elems[|elems| - 1].next)
    {
      e.prev := null;
      e.next := null;
    }

    method Behead(e: Entry<V>)
      requires |elems| > 1 && Chained(elems) && size == |elems| - 1 && e == elems[0] == root
      modifies this`root, this`elems
      ensures elems == Without(old(elems), 0) && Valid()
      ensures elems[0].prev == e && elems[|elems| - 1].next == old(elems[|elems| - 1].next)
    {
      hide LinkedListTTL.Without;
      assert e.next == elems[1] && elems[1].prev == e;
      WithoutEnds(elems);
      root := e.next;
      elems := elems[1..];
    }

    method Curtail(e: Entry<V>)
      requires |elems| > 1 && Chained(elems) && size == |elems| - 1 && e == elems[|elems| - 1] == last
      modifies this`last, this`elems, e`next
      ensures elems == Without(old(elems), |old(elems)| - 1) && Valid()
      ensures elems[|elems| - 1].next == e && elems[0].prev == old(elems[0].prev)
    {
      hide LinkedListTTL.Without;
      WithoutEnds(elems);
      var n := |elems| - 1;
      assert e.prev == elems[n - 1] && elems[n - 1].next == e;
      e.next := null;
      last := e.prev;
      elems := elems[..n];
    }

    /** A member between the ends has both neighbours, so neither nil case of the source arises. */
    method Bypass(e: Entry<V>, ghost k: nat)
      requires Chained(elems) && size == |elems| - 1 && 0 < k < |elems| - 1 && elems[k] == e
      modifies this`elems, elems`prev, elems`next
      ensures elems == Without(old(elems), k) && Valid()
      ensures elems[0].prev == old(elems[0].prev) && elems[|elems| - 1].next == old(elems[|elems| - 1].next)
    {
      var l, r := e.prev, e.next;
      l.next := r;
      r.prev := l;
      ghost var q := elems;
      elems := elems[..k] + elems[k + 1..];
      forall i {:trigger elems[i].next} | 0 <= i < |elems| - 1
        ensures elems[i].next == elems[i + 1] && elems[i + 1].prev == elems[i]
      {
        assert elems[i] == q[if i < k then i else i + 1] && elems[i + 1] == q[if i + 1 < k then i + 1 else i + 2];
      }
    }

    /**
     Puts n in o's place exactly when no stale link misleads it: an o that is the head must have
     a clear prev link, an o that is the last element a clear next link.
     */
    method Replace(o: Entry<V>, n: Entry<V>, ghost k: nat)
      requires Valid() && k < |elems| && elems[k] == o
      requires n !in elems
      modifies this, n, (if o.prev == null then {} else {o.prev})`next, (if o.next == null then {} else {o.next})`prev
      ensures Represents(old(elems)[k := n])
              <==> (k == 0 ==> old(HeadClear())) && (k == |old(elems)| - 1 ==> old(TailClear()))
      ensures elems == old(elems)[k := n]
    {
      ghost var q := elems[k := n];
      assert 0 < k ==> o.prev == elems[k - 1];
      assert k < |elems| - 1 ==> o.next == elems[k + 1];
      n.prev := o.prev;
      n.next := o.next;
      if n.prev == null {
        root := n;
      } else {
        n.prev.next := n;
      }
      if n.next == null {
        last := n;
      } else {
        n.next.prev := n;
      }
      elems := q;
    }

    /** A forward walk from Next(nil) visits exactly the elements, in order, and ends. */
    method Walk() returns (out: seq<Entry<V>>)
      requires Valid() && TailClear()
      ensures out == elems
    {
      out := [];
      var e := Next(null);
      while e != null
        invariant |out| <= |elems| && out == elems[..|out|]
        invariant e == if |out| < |elems| then elems[|out|] else null
        decreases |elems| - |out|
      {
        out := out + [e];
        e := Next(e);
      }
    }

    /** The same backwards. */
    method WalkBack() returns (out: seq<Entry<V>>)
      requires Valid() && HeadClear()
      ensures |out| == |elems| && forall i :: 0 <= i < |out| ==> out[i] == elems[|elems| - 1 - i]
    {
      out := [];
      var e := Prev(null);
      while e != null
        invariant |out| <= |elems|
        invariant forall i :: 0 <= i < |out| ==> out[i] == elems[|elems| - 1 - i]
        invariant e == if |out| < |elems| then elems[|elems| - 1 - |out|] else null
        decreases |elems| - |out|
      {
        out := out + [e];
        e := Prev(e);
      }
    }
  }

  /** After the last of two elements is removed, a forward walk still comes to it. */
  method StaleTail<V>() returns (l: LinkedListTTL<V>, a: Entry<V>, b: Entry<V>)
    ensures l.Valid() && l.elems == [a] && a != b && a.next == b
  {
    l := new LinkedListTTL();
    a := new Entry();
    b := new Entry();
    l.Add(a);
    l.Add(b);
    ghost var k := l.Remove(b);
    assert k == 1;
  }

  /** Moving an element to the end by Remove and Add. */
  method MoveToEnd<V>(l: LinkedListTTL<V>, e: Entry<V>) returns (ghost k: nat)
    requires l.Valid() && e in l.elems
    modifies l`root, l`last, l`size, l`elems, l.elems`prev, l.elems`next
    ensures k < |old(l.elems)| && old(l.elems)[k] == e
    ensures l.Valid() && l.TailClear()
    ensures l.elems == old(l.elems)[..k] + old(l.elems)[k + 1..] + [e]
  {
    k := l.Remove(e);
    l.Add(e);
  }
}
