/**
 The index as the program has it: a map and lists that share mutable entries. Each method is
 proved to take the step of module Index on the value of the state.
 */
module Kvsm {
  import opened Wrappers
  import Index
  import opened IndexInvariant
  import IndexDrain
  import IndexHistory
  import opened TtlList

  type Key = Index.Key

  class KVSM<V> {
    var now: int
    var items: map<Key, Entry<V>>
    var n: int
    var addLLCh: seq<Index.Msg<Entry<V>>>
    var listTTL: map<int, LinkedListTTL<V>>
    var entryPool: set<Entry<V>>
    var notify: bool
    var evicted: seq<V>
    // The fields of every entry the index knows, the elements of every list, and the list objects.
    ghost var heap: map<Entry<V>, Index.Cell<V>>
    ghost var lists: map<int, seq<Entry<V>>>
    ghost var repr: set<LinkedListTTL<V>>
    ghost var linked: set<Entry<V>>

    /** The state as a value. */
    ghost function View(): Index.State<Entry<V>, V>
      reads this
    {
      Index.State(now, items, n, addLLCh, lists, heap, entryPool, notify, evicted)
    }

    ghost predicate EntriesMatch()
      reads this`heap, heap.Keys`key, heap.Keys`expireAt, heap.Keys`p
    {
      forall e :: e in heap ==> heap[e] == Index.Cell(e.key, e.expireAt, e.p)
    }

    /** The lists are distinct, hold what `lists` says, are well linked and end. */
    ghost predicate ListsMatch()
      reads this`listTTL, this`lists, this`repr, this`linked,
            repr`root, repr`last, repr`size, repr`elems, linked`prev, linked`next
    {
      TableMatches() && (forall t :: t in listTTL ==> listTTL[t].Holds(lists[t]))
    }

    ghost predicate TableMatches()
      reads this`listTTL, this`lists, this`repr, this`linked
    {
      && listTTL.Keys == lists.Keys
      && (forall t, u :: t in listTTL && u in listTTL && t != u ==> listTTL[t] != listTTL[u])
      && (forall t :: t in listTTL ==> listTTL[t] in repr)
      && (forall t :: t in lists ==> forall e :: e in lists[t] ==> e in linked)
    }

    ghost predicate Valid()
      reads this, repr, heap.Keys, linked`prev, linked`next
    {
      EntriesMatch() && ListsMatch() && Index.Inv(View())
    }

    constructor (now: int)
      ensures Valid() && View() == Index.Init(now, false)
    {
      this.now, items, n, addLLCh, listTTL := now, map[], 0, [], map[];
      entryPool, notify, evicted := {}, false, [];
      heap, lists, repr, linked := map[], map[], {}, {};
    }

    method SetOnEvicted()
      requires Valid()
      modifies this`notify
      ensures Valid() && View() == old(View()).(notify := true)
    {
      hide Index.Inv, ListsMatch, EntriesMatch;
      notify := true;
      SameKeeps(old(View()), View());
    }

    /** The clock moves between operations. */
    method Tick(d: nat)
      requires Valid()
      modifies this`now
      ensures Valid() && View() == old(View()).(now := old(now) + d)
    {
      hide Index.Inv, ListsMatch, EntriesMatch;
      now := now + d;
      SameKeeps(old(View()), View());
    }

    method Len() returns (r: int)
      requires Valid()
      ensures r == |addLLCh| + Index.Total(View().lists) && |items| <= r
    {
      BoundSize(View());
      return n;
    }

    method Get(k: Key) returns (v: Option<V>, expired: bool, ok: bool)
      requires Valid()
      ensures ok <==> k in View().items
      ensures v == IndexHistory.Get(View(), k)
      ensures expired <==> k !in items || now > items[k].expireAt
    {
      if k !in items {
        return None, true, false;
      }
      var e := items[k];
      assert e in Index.Sched(View());
      return e.p, now > e.expireAt, true;
    }

    /** sync.Pool.Get: an entry that was put there, or a new one. */
    method GetEntry() returns (e: Entry<V>)
      ensures e in entryPool || fresh(e)
    {
      if entryPool != {} {
        if * {
          e :| e in entryPool;
          return;
        }
      }
      e := new Entry();
    }

    /** What Set does with the entry it has filled. */
    method Schedule(e: Entry<V>, k: Key, ttl: int)
      requires ListsMatch() && e.key == Some(k)
      modifies this`items, this`n, this`addLLCh, this`entryPool, this`heap
      ensures ListsMatch()
      ensures items == old(items)[k := e] && n == old(n) + 1 && addLLCh == old(addLLCh) + [Index.Msg(ttl, e)]
      ensures entryPool == old(entryPool) - {e}
      ensures heap == old(heap)[e := Index.Cell(Some(k), e.expireAt, e.p)]
    {
      hide ListsMatch;
      items := items[k := e];
      n := n + 1;
      addLLCh := addLLCh + [Index.Msg(ttl, e)];
      entryPool := entryPool - {e};
      heap := heap[e := Index.Cell(e.key, e.expireAt, e.p)];
    }

    /** The writes of Set, on the entry it got. */
    method Insert(e: Entry<V>, k: Key, v: V, ttl: int)
      requires EntriesMatch() && ListsMatch()
      modifies this`items, this`n, this`addLLCh, this`entryPool, this`heap, e`key, e`expireAt, e`p
      ensures EntriesMatch() && ListsMatch()
      ensures View() == Index.Set(old(View()), e, k, v, ttl)
    {
      hide ListsMatch;
      e.key := Some(k);
      e.expireAt := now + ttl;
      e.p := Some(v);
      Schedule(e, k, ttl);
    }

    method Set(k: Key, v: V, ttl: int) returns (ghost taken: Entry<V>)
      requires Valid()
      modifies this, entryPool
      ensures Index.Obtainable(old(View()), taken)
      ensures Valid() && View() == Index.Set(old(View()), taken, k, v, ttl)
      ensures listTTL == old(listTTL) && repr == old(repr) && fresh(heap.Keys - old(heap.Keys))
    {
      hide Index.Inv, ListsMatch, EntriesMatch;
      var e := GetEntry();
      taken := e;
      KnownEntries(View());
      SetKeeps(View(), e, k, v, ttl);
      Insert(e, k, v, ttl);
    }

    /** The hit of Swap. */
    method Exchange(e: Entry<V>, k: Key, v: V, ttl: int)
      requires EntriesMatch() && ListsMatch() && k in items && items[k] == e && e in heap
      modifies this`evicted, this`heap, e`p
      ensures EntriesMatch() && ListsMatch()
      ensures View() == Index.Swap(old(View()), e, k, v, ttl)
      ensures heap.Keys == old(heap.Keys)
    {
      hide ListsMatch;
      var previous := e.SwapValue(v);
      if notify && previous.Some? {
        evicted := evicted + [previous.value];
      }
      heap := heap[e := Index.Cell(e.key, e.expireAt, Some(v))];
    }

    /** `taken` is the entry of a miss. */
    method Swap(k: Key, v: V, ttl: int) returns (ghost taken: Entry<V>)
      requires Valid()
      modifies this, heap.Keys
      ensures k in old(items) || Index.Obtainable(old(View()), taken)
      ensures Valid() && View() == Index.Swap(old(View()), taken, k, v, ttl)
      ensures listTTL == old(listTTL) && repr == old(repr) && fresh(heap.Keys - old(heap.Keys))
    {
      hide Index.Inv, ListsMatch, EntriesMatch;
      KnownEntries(View());
      if k !in items {
        taken := Set(k, v, ttl);
      } else {
        taken := items[k];
        HitKeeps(View(), taken, k, v, ttl);
        Exchange(items[k], k, v, ttl);
      }
    }

    /** The writes of RemoveByKey. */
    method Tombstone(e: Entry<V>, k: Key)
      requires EntriesMatch() && ListsMatch() && k in items && items[k] == e && e in heap
      modifies this`items, this`heap, e`p, e`expireAt
      ensures EntriesMatch() && ListsMatch()
      ensures View() == Index.RemoveByKey(old(View()), k) && e.p.None? && e.expireAt == 0
      ensures heap.Keys == old(heap.Keys)
    {
      hide ListsMatch;
      items := items - {k};
      e.p := None;
      e.expireAt := 0;
      heap := heap[e := Index.Cell(e.key, 0, None)];
    }

    method RemoveByKey(k: Key)
      requires Valid()
      modifies this`items, this`heap, heap.Keys
      ensures Valid() && View() == Index.RemoveByKey(old(View()), k)
      ensures heap.Keys == old(heap.Keys)
      ensures k in old(items) ==> old(items[k]).p.None? && old(items[k]).expireAt == 0
    {
      hide Index.Inv, ListsMatch, EntriesMatch;
      if k !in items {
        return;
      }
      KnownEntries(View());
      RemoveByKeyKeeps(View(), k);
      Tombstone(items[k], k);
    }

    // ---------- The worker ----------

    /** Creates the list of a TTL the first time it is needed. */
    method EnsureList(t: int)
      requires ListsMatch()
      modifies this`listTTL, this`lists, this`repr
      ensures ListsMatch() && t in lists && t in listTTL && listTTL[t] in repr
      ensures lists == if t in old(lists) then old(lists) else old(lists)[t := []]
      ensures fresh(repr - old(repr))
    {
      if t !in listTTL {
        var l := new LinkedListTTL();
        listTTL := listTTL[t := l];
        lists := lists[t := []];
        repr := repr + {l};
      }
    }

    /** Add on one list leaves the others alone: they share no entry with it. */
    method Append(l: LinkedListTTL<V>, t: int, e: Entry<V>)
      requires ListsMatch() && t in lists && listTTL[t] == l
      requires Index.ListsDisjoint(lists) && e !in Index.ListSet(lists)
      modifies this`lists, this`linked, l`root, l`last, l`size, l`elems,
               e`prev, e`next, lists[t]`next
      ensures ListsMatch() && lists == old(lists)[t := old(lists)[t] + [e]]
      ensures linked == old(linked) + {e}
    {
      CanPush(l, t, e);
      hide ListsMatch, TableMatches, LinkedListTTL.Holds, Index.ListSet, Index.ListsDisjoint;
      Link(t, e);
      Push(l, e, lists, t);
      Relist(t, lists[t] + [e]);
    }

    /** The list of t can take e: it is its own object, and no other list has an entry of it. */
    lemma CanPush(l: LinkedListTTL<V>, t: int, e: Entry<V>)
      requires ListsMatch() && t in lists && listTTL[t] == l
      requires Index.ListsDisjoint(lists) && e !in Index.ListSet(lists)
      ensures TableMatches() && listTTL.Keys == lists.Keys
      ensures forall u :: u in lists ==> listTTL[u].Holds(lists[u])
      ensures forall u :: u in lists ==>
                e !in lists[u] && (u != t ==> listTTL[u] != l && forall f :: f in lists[u] ==> f !in lists[t])
    {
      ListsApart(lists, t, e);
      hide LinkedListTTL.Holds, Index.ListSet, Index.ListsDisjoint;
    }

    ghost method Link(t: int, e: Entry<V>)
      requires TableMatches() && t in lists
      requires forall u :: u in lists ==> listTTL[u].Holds(lists[u])
      modifies this`linked
      ensures TableMatches() && linked == old(linked) + {e}
      ensures forall f :: f in lists[t] + [e] ==> f in linked
      ensures forall u :: u in lists ==> listTTL[u].Holds(lists[u])
    {
      hide LinkedListTTL.Holds;
      linked := linked + {e};
    }

    /** Records what list t now holds. */
    ghost method Relist(t: int, q: seq<Entry<V>>)
      requires TableMatches() && t in lists && forall e :: e in q ==> e in linked
      requires forall u :: u in lists ==> listTTL[u].Holds(if u == t then q else lists[u])
      modifies this`lists
      ensures ListsMatch() && lists == old(lists)[t := q]
    {
      hide LinkedListTTL.Holds;
      lists := lists[t := q];
    }

    /** The same, seen from the list objects. */
    method Push(ce: LinkedListTTL<V>, e: Entry<V>, ghost q: map<int, seq<Entry<V>>>, ghost t: int)
      requires TableMatches() && t in q && q.Keys == listTTL.Keys && listTTL[t] == ce
      requires forall u :: u in q ==> listTTL[u].Holds(q[u])
      requires forall u :: u in q ==>
                 e !in q[u] && (u != t ==> listTTL[u] != ce && forall f :: f in q[u] ==> f !in q[t])
      modifies ce`root, ce`last, ce`size, ce`elems, e`prev, e`next, q[t]`next
      ensures TableMatches()
      ensures forall u :: u in q ==> listTTL[u].Holds(if u == t then q[t] + [e] else q[u])
    {
      label before:
      assert ce.last != null ==> ce.last in q[t];
      ce.Add(e);
      assert ce.Holds(q[t] + [e]);
      hide LinkedListTTL.Holds;
      forall u | u in q && u != t ensures listTTL[u].Holds(q[u]) {
        assert forall i :: 0 <= i < |q[u]| ==> q[u][i] in q[u];
        listTTL[u].HoldsStill@before(q[u]);
      }
    }

    method Deliver(t: int, e: Entry<V>)
      requires EntriesMatch() && ListsMatch() && e in heap
      requires Index.ListsDisjoint(lists) && e !in Index.ListSet(lists)
      requires forall f :: t in lists && f in lists[t] ==> f in heap
      modifies this`listTTL, this`lists, this`repr, this`linked, repr`root, repr`last, repr`size, repr`elems,
               heap.Keys`prev, heap.Keys`next
      ensures EntriesMatch() && ListsMatch() && fresh(repr - old(repr))
      ensures lists == old(lists)[t := (if t in old(lists) then old(lists)[t] else []) + [e]]
    {
      hide ListsMatch, EntriesMatch;
      ghost var was := lists;
      EnsureList(t);
      NewListEmpty(was, t);
      Append(listTTL[t], t, e);
    }

    /** The worker takes a message from the channel. */
    method Receive()
      requires Valid() && addLLCh != []
      modifies this`addLLCh, this`listTTL, this`lists, this`repr, this`linked,
               repr`root, repr`last, repr`size, repr`elems, heap.Keys`prev, heap.Keys`next
      ensures Valid() && View() == Index.Recv(old(View()))
      ensures fresh(repr - old(repr))
    {
      hide Index.Inv, Index.Recv, Index.ListSet, Index.ListsDisjoint, ListsMatch, EntriesMatch;
      var m := addLLCh[0];
      var t := m.ttl;
      if t < Index.SECOND {
        t := Index.SECOND;
      }
      ghost var s := View();
      CanReceive(s, t, m.entry);
      TakeFirst();
      Deliver(t, m.entry);
    }

    lemma CanReceive(s: Index.State<Entry<V>, V>, t: int, e: Entry<V>)
      requires Index.Inv(s) && s.chan != [] && t == Index.ListTtl(s.chan[0].ttl) && e == s.chan[0].entry
      ensures e in s.heap && Index.ListsDisjoint(s.lists) && e !in Index.ListSet(s.lists)
      ensures forall f :: t in s.lists && f in s.lists[t] ==> f in s.heap
      ensures Index.Inv(Index.Recv(s))
      ensures Index.Recv(s)
              == s.(chan := s.chan[1..], lists := s.lists[t := (if t in s.lists then s.lists[t] else []) + [e]])
    {
      RecvKeeps(s);
      ReceiveFacts(s, t);
    }

    method TakeFirst()
      requires EntriesMatch() && ListsMatch() && addLLCh != []
      modifies this`addLLCh
      ensures EntriesMatch() && ListsMatch() && addLLCh == old(addLLCh)[1..]
    {
      hide ListsMatch, EntriesMatch;
      addLLCh := addLLCh[1..];
    }

    /** putEntry: clears every field and hands the entry to the pool. */
    method Recycle(e: Entry<V>)
      requires EntriesMatch() && ListsMatch() && e.prev == null && e.next == null
      modifies this`entryPool, this`heap, e`key, e`expireAt, e`p, e`prev, e`next
      ensures EntriesMatch() && ListsMatch() && e.next == null
      ensures entryPool == old(entryPool) + {e} && heap == old(heap)[e := Index.Blank()]
    {
      hide ListsMatch;
      e.p := None;
      e.prev := null;
      e.next := null;
      e.key := None;
      e.expireAt := 0;
      entryPool := entryPool + {e};
      heap := heap[e := Index.Blank()];
    }

    /** Hands the value, if there is one, to onEvicted and recycles the entry. */
    method Eviction(e: Entry<V>)
      requires EntriesMatch() && ListsMatch() && e.prev == null && e.next == null
      modifies this`evicted, this`entryPool, this`heap, e`key, e`expireAt, e`p, e`prev, e`next
      ensures EntriesMatch() && ListsMatch() && e.next == null
      ensures evicted == if notify && old(e.p).Some? then old(evicted) + [old(e.p).value] else old(evicted)
      ensures entryPool == old(entryPool) + {e} && heap == old(heap)[e := Index.Blank()]
    {
      hide ListsMatch, EntriesMatch;
      if notify {
        var p := e.p;
        if p.Some? {
          evicted := evicted + [p.value];
        }
      }
      Recycle(e);
    }

    /** Deletes by the entry's key, whatever that key is bound to. */
    method Remove(e: Entry<V>)
      requires EntriesMatch() && ListsMatch() && e.prev == null && e.next == null
      modifies this`items, this`n, this`evicted, this`entryPool, this`heap, e`key, e`expireAt, e`p, e`prev, e`next
      ensures EntriesMatch() && ListsMatch() && e.next == null
      ensures items == old(items) - Index.KeySet(old(e.key)) && n == old(n) - 1
      ensures evicted == if notify && old(e.p).Some? then old(evicted) + [old(e.p).value] else old(evicted)
      ensures entryPool == old(entryPool) + {e} && heap == old(heap)[e := Index.Blank()]
    {
      hide ListsMatch, EntriesMatch;
      items := items - Index.KeySet(e.key);
      n := n - 1;
      Eviction(e);
    }

    /** Removing a list's head leaves the other lists alone. */
    method Unlink(l: LinkedListTTL<V>, t: int, e: Entry<V>)
      requires ListsMatch() && t in lists && listTTL[t] == l && Index.ListsDisjoint(lists)
      requires lists[t] != [] && lists[t][0] == e
      modifies this`lists, l`root, l`last, l`size, l`elems,
               lists[t]`prev, lists[t]`next
      ensures ListsMatch() && lists == old(lists)[t := old(lists)[t][1..]]
      ensures e.prev == null && e.next == null
    {
      OthersApart(lists, t);
      hide LinkedListTTL.Holds, Index.ListsDisjoint;
      Pop(l, e, lists, t);
      assert forall f :: f in lists[t][1..] ==> f in lists[t];
      Relist(t, lists[t][1..]);
    }

    method Pop(l: LinkedListTTL<V>, e: Entry<V>, ghost q: map<int, seq<Entry<V>>>, ghost t: int)
      requires t in q && q.Keys == listTTL.Keys && listTTL[t] == l && q[t] != [] && q[t][0] == e
      requires forall u :: u in q ==> listTTL[u].Holds(q[u])
      requires forall u :: u in q && u != t ==> listTTL[u] != l && forall f :: f in q[u] ==> f !in q[t]
      modifies l`root, l`last, l`size, l`elems, q[t]`prev, q[t]`next
      ensures forall u :: u in q ==> listTTL[u].Holds(if u == t then q[t][1..] else q[u])
      ensures e.prev == null && e.next == null
    {
      label before:
      HeadFirst(l, e, q[t]);
      hide LinkedListTTL.Represents;
      ghost var k := l.Remove(e);
      assert l.elems == q[t][1..];
      assert l.Holds(q[t][1..]);
      hide LinkedListTTL.Holds;
      forall u | u in q && u != t ensures listTTL[u].Holds(q[u]) {
        assert forall i :: 0 <= i < |q[u]| ==> q[u][i] in q[u];
        listTTL[u].HoldsStill@before(q[u]);
      }
    }

    lemma HeadFirst(l: LinkedListTTL<V>, e: Entry<V>, q: seq<Entry<V>>)
      requires l.Holds(q) && q != [] && q[0] == e
      ensures l.elems == q && l.Valid() && l.TailClear() && e in l.elems
      ensures forall k :: 0 <= k < |q| && q[k] == e ==> k == 0
    {
    }

    /** Takes the head of list t out of the index. */
    method Reap(t: int, e: Entry<V>)
      requires Valid() && t in lists && lists[t] != [] && lists[t][0] == e
      modifies this`items, this`n, this`evicted, this`entryPool, this`heap, this`lists,
               repr`root, repr`last, repr`size, repr`elems,
               heap.Keys`key, heap.Keys`expireAt, heap.Keys`p, heap.Keys`prev, heap.Keys`next
      ensures Valid() && View() == Index.Reap(old(View()), t)
      ensures listTTL == old(listTTL) && repr == old(repr) && heap.Keys == old(heap.Keys)
      ensures e.next == null
    {
      hide Index.Inv, EntriesMatch;
      assert listTTL[t] in repr;
      hide ListsMatch;
      ghost var s := View();
      ReapFacts(s, t);
      ReapKeeps(s, t);
      Detach(listTTL[t], t, e);
    }

    method Detach(l: LinkedListTTL<V>, t: int, e: Entry<V>)
      requires EntriesMatch() && ListsMatch() && t in lists && listTTL[t] == l && Index.ListsDisjoint(lists)
      requires lists[t] != [] && lists[t][0] == e && forall f :: f in lists[t] ==> f in heap
      modifies this`items, this`n, this`evicted, this`entryPool, this`heap, this`lists,
               l`root, l`last, l`size, l`elems,
               heap.Keys`key, heap.Keys`expireAt, heap.Keys`p, heap.Keys`prev, heap.Keys`next
      ensures EntriesMatch() && ListsMatch() && e.next == null
      ensures View() == Index.Reap(old(View()), t) && heap.Keys == old(heap.Keys)
    {
      hide ListsMatch, Index.ListsDisjoint;
      assert heap[e] == Index.Cell(e.key, e.expireAt, e.p);
      hide EntriesMatch;
      Unlink(l, t, e);
      Remove(e);
    }

    /**
     The sweep's loop over one list. It would go on after a removal, but the removed entry's next
     link has been cleared and is what it continues from: it takes the head or nothing.
     */
    method VisitList(t: int)
      requires Valid() && t in listTTL
      modifies this`items, this`n, this`evicted, this`entryPool, this`heap, this`lists,
               repr`root, repr`last, repr`size, repr`elems,
               heap.Keys`key, heap.Keys`expireAt, heap.Keys`p, heap.Keys`prev, heap.Keys`next
      ensures Valid() && View() == Index.Visit(old(View()), t)
      ensures listTTL == old(listTTL) && repr == old(repr) && heap.Keys == old(heap.Keys)
    {
      hide Index.Inv, ListsMatch, EntriesMatch;
      var l := listTTL[t];
      Nonempty(l, t);
      if l.size == 0 {
        return;
      }
      ghost var s := View();
      var e: Entry?<V> := null;
      while true
        invariant Valid() && listTTL == old(listTTL) && repr == old(repr) && heap.Keys == old(heap.Keys)
        invariant e == null ==> View() == s && s.lists[t] != [] && l.root == s.lists[t][0]
        invariant e != null ==> View() == Index.Visit(s, t) && e.next == null
        decreases e == null
      {
        var first := e == null;
        e := l.Next(e);
        if e == null {
          break;
        }
        assert first;
        HeadCell(t, e);
        if e.p == None || now > e.expireAt {
          Reap(t, e);
          continue;
        }
        break;
      }
    }

    lemma Nonempty(l: LinkedListTTL<V>, t: int)
      requires ListsMatch() && t in listTTL && listTTL[t] == l
      ensures t in lists && l.size == |lists[t]|
      ensures lists[t] != [] ==> l.root == lists[t][0]
    {
      assert l.Holds(lists[t]);
    }

    lemma HeadCell(t: int, e: Entry<V>)
      requires Valid() && t in lists && lists[t] != [] && lists[t][0] == e
      ensures Index.At(View(), e) == Index.Cell(e.key, e.expireAt, e.p)
    {
      ReapFacts(View(), t);
    }

    /** One firing of the worker's timer. */
    method SweepLists() returns (ghost ks: seq<int>)
      requires Valid()
      modifies this`items, this`n, this`evicted, this`entryPool, this`heap, this`lists,
               repr`root, repr`last, repr`size, repr`elems,
               heap.Keys`key, heap.Keys`expireAt, heap.Keys`p, heap.Keys`prev, heap.Keys`next
      ensures IndexDrain.Enumerates(ks, old(listTTL.Keys))
      ensures IndexDrain.Increasing(ks)
      ensures Valid() && View() == Index.Sweep(old(View()), ks)
      ensures listTTL == old(listTTL) && repr == old(repr) && heap.Keys == old(heap.Keys)
    {
      hide Index.Inv, ListsMatch, EntriesMatch;
      var keys := IndexDrain.SortedKeys(listTTL);
      ks := keys;
      ghost var s := View();
      for i := 0 to |keys|
        invariant Valid() && listTTL == old(listTTL) && repr == old(repr) && heap.Keys == old(heap.Keys)
        invariant Index.Sweep(s, keys) == Index.Sweep(View(), keys[i..])
      {
        var tkd := Index.Whole(keys[i]);
        if tkd in listTTL {
          VisitList(tkd);
        } else {
          NoList(tkd);
        }
        assert keys[i..][1..] == keys[i + 1..];
      }
    }

    lemma NoList(t: int)
      requires ListsMatch() && t !in listTTL
      ensures Index.Visit(View(), t) == View()
    {
    }
  }
}
