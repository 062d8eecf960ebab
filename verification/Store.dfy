/**
 The store of lsm/lsm.go as the program has it: an index over shared item objects, their reader
 counts, the retry channel and the pools. Each method is proved to take the step of module Refs.
 */
module Stores {
  import opened Wrappers
  import Index
  import IndexHistory
  import opened Log
  import opened TtlList
  import opened Kvsm
  import Refs
  import opened RefsSafety

  const ITEM_MEM_MAX_SIZE: nat := 5 * 1024 * 1024

  /** What items in memory and on disk have in common. `room` is the capacity of an item in memory. */
  class Item {
    const disk: bool
    var key: Index.Key
    var body: Bytes
    var room: nat
    var hit: nat
    var inUse: int

    constructor (disk: bool)
      ensures this.disk == disk && body == [] && inUse == 0
    {
      this.disk, key, body, room, hit, inUse := disk, 0, [], 0, 0, 0;
    }

    /** Whether a pool takes the item back. */
    predicate Keeps()
      reads this
    {
      disk || room <= ITEM_MEM_MAX_SIZE
    }
  }

  type Snapshot = Refs.Store<Entry<Item>, Item>

  class LSM {
    const mem: KVSM<Item>
    const minLSMTTL: int
    var retryEvictionCh: seq<Item>
    var itemPool: multiset<Item>
    // What has been sent to the value log.
    var vlog: seq<(Item, int)>
    // The fields of the items, the items with a writer, and who reads what.
    ghost var inUse: map<Item, int>
    ghost var content: map<Item, Bytes>
    ghost var held: set<Item>
    ghost var readers: map<Refs.Handle, Item>

    ghost function View(): Snapshot
      reads this, mem
    {
      Refs.Store(mem.View(), inUse, content, held, readers, retryEvictionCh, itemPool)
    }

    ghost predicate ItemsMatch()
      reads this`inUse, this`content, inUse.Keys
    {
      && content.Keys == inUse.Keys
      && forall x :: x in inUse ==> x.inUse == inUse[x] && x.body == content[x]
    }

    ghost predicate Valid()
      reads this, mem, mem.repr, mem.heap.Keys, mem.linked`prev, mem.linked`next, inUse.Keys
    {
      mem.Valid() && mem.notify && ItemsMatch() && Refs.Inv(View())
    }

    constructor (now: int, minLSMTTL: int)
      ensures Valid() && View() == Refs.Init(now)
    {
      var index := new KVSM(now);
      index.SetOnEvicted();
      this.mem, this.minLSMTTL := index, minLSMTTL;
      retryEvictionCh, itemPool, vlog := [], multiset{}, [];
      inUse, content, held, readers := map[], map[], {}, map[];
      new;
      RefsSafety.InitInv<Entry<Item>, Item>(now);
    }

    /** An unused item is reset and goes to its pool; one in use is queued, if the channel has room. */
    method OnEvictInternal(x: Item) returns (n: int)
      requires ItemsMatch() && x in inUse && mem.Valid()
      modifies this`retryEvictionCh, this`itemPool, this`inUse, this`content, x`key, x`body, x`hit, x`inUse
      ensures mem.Valid() && ItemsMatch() && View() == Refs.OnEvict(old(View()), x, old(x.Keeps()))
      ensures n == old(x.inUse)
      ensures n == 0 ==>
                && x.body == [] && retryEvictionCh == old(retryEvictionCh)
                && itemPool == old(itemPool)
                               + if x.disk || old(x.room) <= 5 * 1024 * 1024 then multiset{x} else multiset{}
      ensures n != 0 ==>
                && x.body == old(x.body) && itemPool == old(itemPool)
                && retryEvictionCh == old(retryEvictionCh) + if |old(retryEvictionCh)| < 1024 then [x] else []
    {
      hide KVSM.Valid;
      n := x.inUse;
      if n == 0 {
        PutItem(x);
        return;
      }
      if |retryEvictionCh| < Refs.RETRY_SIZE {
        retryEvictionCh := retryEvictionCh + [x];
      }
    }

    method PutItem(x: Item)
      requires ItemsMatch() && x in inUse
      modifies this`itemPool, this`inUse, this`content, x`key, x`body, x`hit, x`inUse
      ensures ItemsMatch() && View() == Refs.Put(old(View()), x, old(x.Keeps()))
      ensures x.key == 0 && x.body == [] && x.hit == 0 && x.inUse == 0
      ensures itemPool == old(itemPool) + if x.disk || old(x.room) <= 5 * 1024 * 1024 then multiset{x} else multiset{}
    {
      var keep := x.Keeps();
      Reset(x);
      hide ItemsMatch;
      if keep {
        itemPool := itemPool + multiset{x};
      }
    }

    method Reset(x: Item)
      requires ItemsMatch() && x in inUse
      modifies this`inUse, this`content, x`key, x`body, x`hit, x`inUse
      ensures ItemsMatch() && inUse == old(inUse)[x := 0] && content == old(content)[x := []]
      ensures x.key == 0 && x.body == [] && x.hit == 0 && x.inUse == 0
    {
      x.key, x.body, x.hit, x.inUse := 0, [], 0, 0;
      inUse, content := inUse[x := 0], content[x := []];
    }

    method Done(x: Item, ghost h: Refs.Handle)
      requires Valid() && h in readers && readers[h] == x
      modifies this`inUse, this`readers, x`inUse
      ensures Valid() && View() == Refs.Step(old(View()), Refs.Done(h)) && x.inUse == old(x.inUse) - 1
    {
      hide Index.Inv, KVSM.Valid, Refs.Inv;
      StepInv(View(), Refs.Done(h));
      ReadersKnown(View(), h);
      x.inUse := x.inUse - 1;
      inUse := inUse[x := inUse[x] - 1];
      readers := readers - {h};
    }

    lemma ReadersKnown(s: Snapshot, h: Refs.Handle)
      requires Refs.Inv(s) && h in s.readers
      ensures s.readers[h] in s.inUse
    {
    }

    /** The callback of the index, if the step i of the index has called it. */
    method Callback(was: nat, ghost s: Snapshot, ghost i: Index.Action<Entry<Item>, Item>) returns (ghost keep: bool)
      requires mem.Valid() && ItemsMatch() && s.kv.notify && was == |s.kv.evicted|
      requires View() == s.(kv := Index.Step(s.kv, i))
      requires Refs.Evicted(s.kv, i).Some? ==> Refs.Evicted(s.kv, i).value in inUse
      modifies this`retryEvictionCh, this`itemPool, this`inUse, this`content,
               inUse.Keys`key, inUse.Keys`body, inUse.Keys`hit, inUse.Keys`inUse
      ensures mem.Valid() && ItemsMatch() && View() == Refs.ByIndex(s, i, keep) && unchanged(mem)
    {
      EvictedLogged(s.kv, i);
      hide Index.Step, Refs.OnEvict, Refs.Evicted, ItemsMatch, KVSM.Valid;
      keep := true;
      if |mem.evicted| > was {
        var x := mem.evicted[was];
        keep := x.Keeps();
        var _ := OnEvictInternal(x);
      }
    }

    /** The item goes into the index, and to the log if it is to live long enough. */
    method Set(x: Item, ttl: int) returns (ghost taken: Entry<Item>)
      requires Valid() && x in held
      modifies this`vlog, this`held, mem, mem.entryPool
      ensures Index.Obtainable(old(mem.View()), taken)
      ensures Valid() && View() == Refs.Step(old(View()), Refs.Set(x, taken, x.key, ttl))
      ensures vlog == old(vlog) + if ttl > minLSMTTL then [(x, ttl)] else []
    {
      hide Index.Inv, KVSM.Valid, Refs.Inv, ItemsMatch, Refs.Step;
      ghost var s := View();
      taken := mem.Set(x.key, x, ttl);
      SetStep(s, x, taken, x.key, ttl);
      held := held - {x};
      if ttl > minLSMTTL {
        vlog := vlog + [(x, ttl)];
      }
    }

    lemma SetStep(s: Snapshot, x: Item, e: Entry<Item>, k: Index.Key, ttl: int)
      requires Refs.Inv(s) && x in s.held && Index.Obtainable(s.kv, e)
      ensures Refs.Step(s, Refs.Set(x, e, k, ttl)) == s.(held := s.held - {x}, kv := Index.Set(s.kv, e, k, x, ttl))
      ensures Refs.Inv(Refs.Step(s, Refs.Set(x, e, k, ttl)))
    {
      hide Refs.Inv;
      StepInv(s, Refs.Set(x, e, k, ttl));
    }

    /** What the log calls once an item is on disk. The entry of the key drops what it held before. */
    method AfterWrite(x: Item, ttl: int) returns (ghost taken: Entry<Item>, ghost keep: bool)
      requires Valid() && x in held
      modifies this`retryEvictionCh, this`itemPool, this`inUse, this`content, this`held, mem, mem.heap.Keys,
               inUse.Keys`key, inUse.Keys`body, inUse.Keys`hit, inUse.Keys`inUse
      ensures old(x.key) in old(mem.items) || Index.Obtainable(old(mem.View()), taken)
      ensures Valid() && View() == Refs.Step(old(View()), Refs.Swap(x, taken, old(x.key), ttl, keep))
    {
      hide Index.Inv, Refs.Inv, ItemsMatch, KVSM.Valid, Refs.Evicted, Index.Step, Refs.OnEvict, Refs.ByIndex, Refs.Step;
      ghost var s := View();
      ghost var k := x.key;
      var was := |mem.evicted|;
      taken := SwapIn(x, ttl);
      ghost var i := Index.DoSwap(taken, k, x, ttl);
      EvictedKnown(s, i);
      keep := Callback(was, s.(held := held), i);
      SwapStep(s, x, taken, k, ttl, keep);
    }

    method SwapIn(x: Item, ttl: int) returns (ghost taken: Entry<Item>)
      requires mem.Valid() && ItemsMatch()
      modifies this`held, mem, mem.heap.Keys
      ensures x.key in old(mem.items) || Index.Obtainable(old(mem.View()), taken)
      ensures mem.Valid() && ItemsMatch() && mem.notify == old(mem.notify)
      ensures fresh(mem.heap.Keys - old(mem.heap.Keys)) && mem.repr == old(mem.repr)
      ensures var i := Index.DoSwap(taken, x.key, x, ttl);
              View() == old(View()).(held := old(held) - {x}, kv := Index.Step(old(mem.View()), i))
    {
      hide KVSM.Valid, Index.Swap;
      ghost var kv := mem.View();
      taken := mem.Swap(x.key, x, ttl);
      NotifyStays(kv, Index.DoSwap(taken, x.key, x, ttl));
      held := held - {x};
    }

    lemma NotifyStays(kv: Index.State<Entry<Item>, Item>, i: Index.Action<Entry<Item>, Item>)
      ensures Index.Step(kv, i).notify == kv.notify
    {
    }

    lemma SwapStep(s: Snapshot, x: Item, e: Entry<Item>, k: Index.Key, ttl: int, keep: bool)
      requires Refs.Inv(s) && x in s.held && Index.Enabled(s.kv, Index.DoSwap(e, k, x, ttl))
      ensures Refs.Step(s, Refs.Swap(x, e, k, ttl, keep)) ==
              Refs.ByIndex(s.(held := s.held - {x}), Index.DoSwap(e, k, x, ttl), keep)
      ensures Refs.Inv(Refs.Step(s, Refs.Swap(x, e, k, ttl, keep)))
    {
      hide Refs.Inv, Refs.ByIndex;
      ByIndexKeeps(s, Index.DoSwap(e, k, x, ttl), keep);
    }

    lemma EvictedKnown(s: Snapshot, i: Index.Action<Entry<Item>, Item>)
      requires Refs.Inv(s)
      ensures Refs.Evicted(s.kv, i).Some? ==> Refs.Evicted(s.kv, i).value in s.inUse
    {
    }

    /** One visit of the index's sweep, with the eviction it causes. */
    method VisitList(t: int) returns (ghost keep: bool)
      requires Valid() && t in mem.listTTL
      modifies this`retryEvictionCh, this`itemPool, this`inUse, this`content,
               mem, mem.repr, mem.heap.Keys, inUse.Keys`key, inUse.Keys`body, inUse.Keys`hit, inUse.Keys`inUse
      ensures Valid() && View() == Refs.Step(old(View()), Refs.Visit(t, keep))
    {
      hide Index.Inv, Refs.Inv, ItemsMatch, KVSM.Valid, Refs.Evicted, Index.Step, Refs.OnEvict, Refs.ByIndex, Refs.Step;
      ghost var s := View();
      ghost var i := Index.DoVisit(t);
      var was := |mem.evicted|;
      Visit(t);
      EvictedKnown(s, i);
      keep := Callback(was, s, i);
      VisitStep(s, t, keep);
    }

    method Visit(t: int)
      requires mem.Valid() && ItemsMatch() && t in mem.listTTL
      modifies mem, mem.repr, mem.heap.Keys
      ensures mem.Valid() && ItemsMatch() && mem.notify == old(mem.notify)
      ensures mem.heap.Keys == old(mem.heap.Keys) && mem.repr == old(mem.repr)
      ensures View() == old(View()).(kv := Index.Step(old(mem.View()), Index.DoVisit(t)))
    {
      hide KVSM.Valid, Index.Visit;
      ghost var kv := mem.View();
      mem.VisitList(t);
      NotifyStays(kv, Index.DoVisit(t));
    }

    lemma VisitStep(s: Snapshot, t: int, keep: bool)
      requires Refs.Inv(s)
      ensures Refs.Step(s, Refs.Visit(t, keep)) == Refs.ByIndex(s, Index.DoVisit(t), keep)
      ensures Refs.Inv(Refs.Step(s, Refs.Visit(t, keep)))
    {
      hide Refs.Inv, Refs.ByIndex;
      ByIndexKeeps(s, Index.DoVisit(t), keep);
    }

    /** The index's worker takes an entry from the channel. */
    method Receive()
      requires Valid() && mem.addLLCh != []
      modifies mem, mem.repr, mem.heap.Keys
      ensures Valid() && View() == Refs.Step(old(View()), Refs.Recv)
    {
      hide Index.Inv, KVSM.Valid, Refs.Inv, ItemsMatch;
      StepInv(View(), Refs.Recv);
      mem.Receive();
    }

    method Tick(d: nat)
      requires Valid()
      modifies mem`now
      ensures Valid() && View() == Refs.Step(old(View()), Refs.Tick(d))
    {
      hide Index.Inv, KVSM.Valid, Refs.Inv, ItemsMatch;
      StepInv(View(), Refs.Tick(d));
      mem.Tick(d);
    }

    method Delete(k: Index.Key)
      requires Valid()
      modifies mem`items, mem`heap, mem.heap.Keys
      ensures Valid() && View() == Refs.Step(old(View()), Refs.Delete(k))
    {
      hide Index.Inv, KVSM.Valid, Refs.Inv, ItemsMatch;
      StepInv(View(), Refs.Delete(k));
      mem.RemoveByKey(k);
    }

    /** A hit counts the reader; the caller owes a Done. */
    method Get(k: Index.Key, ghost h: Refs.Handle) returns (item: Option<Item>, expired: bool)
      requires Valid() && h !in readers
      modifies this`inUse, this`readers, inUse.Keys`inUse, inUse.Keys`hit
      ensures Valid() && View() == Refs.Step(old(View()), Refs.Get(h, k))
      ensures item == IndexHistory.Get(mem.View(), k)
      ensures item.Some? ==> h in readers && readers[h] == item.value && item.value.hit == old(item.value.hit) + 1
      ensures expired <==> item.Some? && mem.now > mem.items[k].expireAt
    {
      hide Index.Inv, KVSM.Valid, Refs.Inv, ItemsMatch;
      StepInv(View(), Refs.Get(h, k));
      var v, e, ok := mem.Get(k);
      item, expired := None, false;
      if ok {
        HitKnown(View(), k);
        Count(v.value, h);
        return v, e;
      }
    }

    method Count(x: Item, ghost h: Refs.Handle)
      requires ItemsMatch() && x in inUse
      modifies this`inUse, this`readers, x`inUse, x`hit
      ensures ItemsMatch()
      ensures View() == old(View()).(inUse := old(inUse)[x := old(inUse)[x] + 1], readers := old(readers)[h := x])
      ensures x.hit == old(x.hit) + 1
    {
      x.inUse := x.inUse + 1;
      x.hit := x.hit + 1;
      inUse := inUse[x := inUse[x] + 1];
      readers := readers[h := x];
    }

    lemma HitKnown(s: Snapshot, k: Index.Key)
      requires Refs.Inv(s) && k in s.kv.items
      ensures Index.At(s.kv, s.kv.items[k]).val.Some? && Index.At(s.kv, s.kv.items[k]).val.value in s.inUse
    {
      HitStored(s.kv, k);
    }

    /** One round of the loop over the retry channel. */
    method RetryEviction() returns (n: int, ghost keep: bool)
      requires Valid() && retryEvictionCh != []
      modifies this`retryEvictionCh, this`itemPool, this`inUse, this`content,
               inUse.Keys`key, inUse.Keys`body, inUse.Keys`hit, inUse.Keys`inUse
      ensures Valid() && View() == Refs.Step(old(View()), Refs.Retry(keep))
      ensures n == old(retryEvictionCh[0].inUse)
    {
      hide Index.Inv, KVSM.Valid, Refs.Inv, ItemsMatch, Refs.OnEvict;
      var x := retryEvictionCh[0];
      keep := x.Keeps();
      StepInv(View(), Refs.Retry(keep));
      QueuedKnown(View());
      retryEvictionCh := retryEvictionCh[1..];
      n := OnEvictInternal(x);
    }

    lemma QueuedKnown(s: Snapshot)
      requires Refs.Inv(s) && s.retry != []
      ensures s.retry[0] in s.inUse
    {
      assert s.retry[0] in Refs.Waiting(s);
    }

    /** A new item, or one that a pool hands out again. */
    method NewItem(disk: bool) returns (x: Item)
      requires Valid()
      modifies this`itemPool, this`inUse, this`content, this`held
      ensures Valid() && View() == Refs.Step(old(View()), Refs.NewItem(x))
      ensures fresh(x) || x in old(itemPool)
      ensures x in held && x.body == [] && x.inUse == 0 && x.disk == disk
    {
      hide Index.Inv, KVSM.Valid, Refs.Inv, ItemsMatch;
      x := Take(disk);
      Blank(x);
      StepInv(View(), Refs.NewItem(x));
      Own(x);
    }

    /** The item leaves its pool and is with a writer. */
    method Own(x: Item)
      requires ItemsMatch() && x.body == [] && x.inUse == 0
      modifies this`itemPool, this`inUse, this`content, this`held
      ensures ItemsMatch() && x in held && View() == Refs.Step(old(View()), Refs.NewItem(x))
    {
      itemPool := itemPool - multiset{x};
      inUse, content, held := inUse[x := 0], content[x := []], held + {x};
    }

    lemma Blank(x: Item)
      requires Valid() && (x in itemPool || (x.body == [] && x.inUse == 0))
      ensures x.body == [] && x.inUse == 0
    {
      if x in itemPool {
        PoolKnown(View(), x);
      }
    }

    method Take(disk: bool) returns (x: Item)
      requires ItemsMatch()
      ensures (fresh(x) && x.body == [] && x.inUse == 0) || x in itemPool
      ensures x.disk == disk
    {
      if * {
        if itd :| itd in itemPool && itd.disk == disk {
          return itd;
        }
      }
      x := new Item(disk);
    }

    lemma PoolKnown(s: Snapshot, x: Item)
      requires Refs.Inv(s) && x in s.pool
      ensures x in s.inUse && s.inUse[x] == 0 && s.content[x] == []
    {
      PooledIdle(s, x);
    }

    /** The writer of an item fills it before it stores it. */
    method Write(x: Item, b: Bytes)
      requires Valid() && x in held
      modifies this`content, x`body, x`room
      ensures Valid() && View() == Refs.Step(old(View()), Refs.Fill(x, b)) && x.body == old(x.body) + b
    {
      hide Index.Inv, KVSM.Valid, Refs.Inv;
      StepInv(View(), Refs.Fill(x, b));
      HeldKnown(View(), x);
      x.body := x.body + b;
      if |x.body| > x.room {
        x.room := |x.body|;
      }
      content := content[x := x.body];
    }

    lemma HeldKnown(s: Snapshot, x: Item)
      requires Refs.Inv(s) && x in s.held
      ensures x in s.inUse && x in s.content
    {
    }
  }
}
