/**
 Reference counts and recycling of cache items, from lsm/lsm.go, lsm/item.go and lsm/itemDisk.go:
 here an item is an object with an identity, and the pool hands the same object out again.
 */
module Refs {
  import opened Wrappers
  import Index
  import opened IndexLive
  import opened Log

  type Key = Index.Key
  type Handle = nat

  const RETRY_SIZE := 1024

  /**
   `held` are the items a writer has taken and not stored yet. `readers` are the Gets that have not
   called Done. `pool` is a multiset: that nothing is in it twice is a theorem.
   */
  datatype Store<E(==), I(==)> = Store(
    kv: Index.State<E, I>,
    inUse: map<I, int>,
    content: map<I, Bytes>,
    held: set<I>,
    readers: map<Handle, I>,
    retry: seq<I>,
    pool: multiset<I>)

  function Init<E, I>(now: int): Store<E, I> {
    Store(Index.Init(now, true), map[], map[], {}, map[], [], multiset{})
  }

  // ---------- Eviction ----------

  function InUse<E, I>(s: Store<E, I>, x: I): int {
    if x in s.inUse then s.inUse[x] else 0
  }

  /** Resets an item; one that is too large is left to the garbage collector. */
  function Put<E, I>(s: Store<E, I>, x: I, keep: bool): Store<E, I> {
    s.(inUse := s.inUse[x := 0], content := s.content[x := []],
       pool := if keep then s.pool + multiset{x} else s.pool)
  }

  /** onEvictInternal: an unused item goes to the pool, one in use is tried again later, if there is room. */
  function OnEvict<E, I>(s: Store<E, I>, x: I, keep: bool): Store<E, I> {
    if InUse(s, x) == 0 then Put(s, x, keep)
    else if |s.retry| < RETRY_SIZE then s.(retry := s.retry + [x])
    else s
  }

  /** The value a step of the index hands to onEvicted. */
  function Evicted<E, I>(kv: Index.State<E, I>, a: Index.Action<E, I>): Option<I> {
    match a
    case DoSwap(_, k, _, _) => if k in kv.items then Index.At(kv, kv.items[k]).val else None
    case DoVisit(t) => if Index.Reaps(kv, t) then Index.At(kv, Index.ListAt(kv, t)[0]).val else None
    case _ => None
  }

  // ---------- Steps ----------

  datatype Action<E(==), I(==)> =
    | NewItem(x: I)
    | Fill(x: I, b: Bytes)
    // An item in memory goes into the index, and one on disk replaces what its key holds.
    | Set(x: I, e: E, k: Key, ttl: int)
    | Swap(x: I, e: E, k: Key, ttl: int, keep: bool)
    | Get(h: Handle, k: Key)
    | Done(h: Handle)
    | Delete(k: Key)
    | Recv
    | Visit(t: int, keep: bool)
    | Tick(d: nat)
    | Retry(keep: bool)

  function IndexStep<E, I>(a: Action<E, I>): Option<Index.Action<E, I>> {
    match a
    case Set(x, e, k, ttl) => Some(Index.DoSet(e, k, x, ttl))
    case Swap(x, e, k, ttl, _) => Some(Index.DoSwap(e, k, x, ttl))
    case Delete(k) => Some(Index.DoRemove(k))
    case Recv => Some(Index.DoRecv)
    case Visit(t, _) => Some(Index.DoVisit(t))
    case Tick(d) => Some(Index.DoTick(d))
    case _ => None
  }

  /** A step of the index, followed by the eviction it causes. */
  function ByIndex<E, I>(s: Store<E, I>, i: Index.Action<E, I>, keep: bool): Store<E, I> {
    var s' := s.(kv := Index.Step(s.kv, i));
    match Evicted(s.kv, i)
    case None => s'
    case Some(x) => OnEvict(s', x, keep)
  }

  function Step<E, I>(s: Store<E, I>, a: Action<E, I>): Store<E, I> {
    match a
    case NewItem(x) =>
      s.(inUse := s.inUse[x := 0], content := s.content[x := []],
         held := s.held + {x}, pool := s.pool - multiset{x})
    case Fill(x, b) => s.(content := s.content[x := Content(s, x) + b])
    case Set(x, e, k, ttl) => ByIndex(s.(held := s.held - {x}), IndexStep(a).value, true)
    case Swap(x, e, k, ttl, keep) => ByIndex(s.(held := s.held - {x}), IndexStep(a).value, keep)
    case Get(h, k) =>
      if k in s.kv.items && Index.At(s.kv, s.kv.items[k]).val.Some? then
        var x := Index.At(s.kv, s.kv.items[k]).val.value;
        s.(inUse := s.inUse[x := InUse(s, x) + 1], readers := s.readers[h := x])
      else s
    case Done(h) =>
      if h in s.readers then
        s.(inUse := s.inUse[s.readers[h] := InUse(s, s.readers[h]) - 1], readers := s.readers - {h})
      else s
    case Visit(_, keep) => ByIndex(s, IndexStep(a).value, keep)
    case Retry(keep) => if s.retry == [] then s else OnEvict(s.(retry := s.retry[1..]), s.retry[0], keep)
    case _ => ByIndex(s, IndexStep(a).value, true)
  }

  function Content<E, I>(s: Store<E, I>, x: I): Bytes {
    if x in s.content then s.content[x] else []
  }

  predicate Enabled<E, I>(s: Store<E, I>, a: Action<E, I>) {
    match a
    case NewItem(x) => x in s.pool || x !in s.inUse
    case Fill(x, _) => x in s.held
    case Set(x, e, _, _) => x in s.held && Index.Obtainable(s.kv, e)
    case Swap(x, e, k, _, _) => x in s.held && (k in s.kv.items || Index.Obtainable(s.kv, e))
    case Get(h, _) => h !in s.readers
    case Done(h) => h in s.readers
    case _ => true
  }

  function Run<E, I>(s: Store<E, I>, acts: seq<Action<E, I>>): Store<E, I> {
    if acts == [] then s else Step(Run(s, acts[..|acts| - 1]), acts[|acts| - 1])
  }

  predicate Allowed<E, I>(s: Store<E, I>, acts: seq<Action<E, I>>) {
    acts == [] ||
    (Allowed(s, acts[..|acts| - 1]) && Enabled(Run(s, acts[..|acts| - 1]), acts[|acts| - 1]))
  }

  // ---------- Invariants ----------

  /** The items that entries of the index hold. */
  ghost function Stored<E, I>(kv: Index.State<E, I>): set<I> {
    set e | e in kv.heap && Live(kv, e) :: Index.At(kv, e).val.value
  }

  function Readers<E, I>(s: Store<E, I>, x: I): set<Handle> {
    set h | h in s.readers && s.readers[h] == x
  }

  ghost predicate StoredOnce<E, I>(kv: Index.State<E, I>) {
    forall e, f :: e in kv.heap && f in kv.heap ==>
      Live(kv, e) && Live(kv, f) && Index.At(kv, e).val == Index.At(kv, f).val ==> e == f
  }

  function Waiting<E, I>(s: Store<E, I>): set<I> {
    set x | x in s.retry
  }

  function Pooled<E, I>(s: Store<E, I>): set<I> {
    set x | x in s.pool
  }

  /** An item is in at most one place, and there once: in an entry, with a writer, in the retry queue, in the pool. */
  ghost predicate OnePlace<E, I>(s: Store<E, I>) {
    && StoredOnce(s.kv) && Index.NoDup(s.retry)
    && (forall x :: x in s.pool ==> s.pool[x] == 1)
    && Stored(s.kv) !! s.held && Stored(s.kv) !! Waiting(s) && Stored(s.kv) !! Pooled(s)
    && s.held !! Waiting(s) && s.held !! Pooled(s) && Waiting(s) !! Pooled(s)
  }

  ghost predicate Known<E, I>(s: Store<E, I>) {
    s.content.Keys == s.inUse.Keys
    && Stored(s.kv) <= s.inUse.Keys && s.held <= s.inUse.Keys && Waiting(s) <= s.inUse.Keys && Pooled(s) <= s.inUse.Keys
  }

  /** inUse counts the outstanding readers. */
  predicate CountsReaders<E, I>(s: Store<E, I>) {
    && (forall x :: x in s.inUse ==> s.inUse[x] == |Readers(s, x)|)
    && (forall h :: h in s.readers ==> s.readers[h] in s.inUse)
  }

  /** An item in the pool or with a writer has no reader, and one in the pool has no content. */
  predicate IdleUnread<E, I>(s: Store<E, I>) {
    && (forall h :: h in s.readers ==> s.readers[h] !in s.pool && s.readers[h] !in s.held)
    && (forall x :: x in s.pool ==> Content(s, x) == [])
  }

  ghost predicate Inv<E, I>(s: Store<E, I>) {
    Index.Inv(s.kv) && OnePlace(s) && Known(s) && CountsReaders(s) && IdleUnread(s)
  }
}
