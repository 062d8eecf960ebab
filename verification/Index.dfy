/**
 The TTL index of lsm/kvsm as a state machine over values.

 An entry is known only by its identity E, so that one entry can be bound in the hash map,
 wait in the hand-off channel and sit in a TTL list under the same name. Every public
 operation and every action of the expiration worker is one atomic step.
 */
module Index {
  import opened Wrappers

  /** A uint64 cache key. */
  type Key = k: int | 0 <= k < 0x1_0000_0000_0000_0000

  /** Durations and instants are in nanoseconds. */
  const SECOND: int := 1_000_000_000

  /** The fields of an entry, less its links. `val` is None for the shared no-content pointer. */
  datatype Cell<V> = Cell(key: Option<Key>, expireAt: int, val: Option<V>)

  datatype Msg<E> = Msg(ttl: int, entry: E)

  /**
   `chan` holds the buffered messages of addLLCh followed by those of the senders that are
   blocked on the full buffer: both are served first in, first out. `evicted` logs the
   values handed to onEvicted, when `notify` says that one is set.
   */
  datatype State<E(==), V> = State(
    now: int,
    items: map<Key, E>,
    n: int,
    chan: seq<Msg<E>>,
    lists: map<int, seq<E>>,
    heap: map<E, Cell<V>>,
    pool: set<E>,
    notify: bool,
    evicted: seq<V>)

  // ---------- Operations ----------

  function Blank<V>(): Cell<V> {
    Cell(None, 0, None)
  }

  function At<E, V>(s: State<E, V>, e: E): Cell<V> {
    if e in s.heap then s.heap[e] else Blank()
  }

  function Init<E, V>(now: int, notify: bool): State<E, V> {
    State(now, map[], 0, [], map[], map[], {}, notify, [])
  }

  /** What sync.Pool may hand out: an entry put there before, or a new one. */
  predicate Obtainable<E, V>(s: State<E, V>, e: E) {
    e in s.pool || e !in s.heap
  }

  function Evict<E, V>(s: State<E, V>, val: Option<V>): State<E, V> {
    if s.notify && val.Some? then s.(evicted := s.evicted + [val.value]) else s
  }

  function Set<E, V>(s: State<E, V>, e: E, k: Key, v: V, ttl: int): State<E, V> {
    s.(heap := s.heap[e := Cell(Some(k), s.now + ttl, Some(v))],
       pool := s.pool - {e},
       items := s.items[k := e],
       n := s.n + 1,
       chan := s.chan + [Msg(ttl, e)])
  }

  /** A hit exchanges the value and keeps expireAt; a miss is a Set. */
  function Swap<E, V>(s: State<E, V>, e: E, k: Key, v: V, ttl: int): State<E, V> {
    if k in s.items then
      var b := s.items[k];
      Evict(s.(heap := s.heap[b := At(s, b).(val := Some(v))]), At(s, b).val)
    else
      Set(s, e, k, v, ttl)
  }

  /** Unbinds the key and leaves a tombstone wherever the entry is scheduled. */
  function RemoveByKey<E, V>(s: State<E, V>, k: Key): State<E, V> {
    if k in s.items then
      var b := s.items[k];
      s.(items := s.items - {k}, heap := s.heap[b := At(s, b).(val := None, expireAt := 0)])
    else
      s
  }

  /** The list an entry goes to: durations under a second share the one-second list. */
  function ListTtl(ttl: int): int {
    if ttl < SECOND then SECOND else ttl
  }

  function ListAt<E, V>(s: State<E, V>, t: int): seq<E> {
    if t in s.lists then s.lists[t] else []
  }

  /** The worker takes one message and appends its entry to the list of its TTL. */
  function Recv<E, V>(s: State<E, V>): State<E, V> {
    if s.chan == [] then
      s
    else
      var t := ListTtl(s.chan[0].ttl);
      s.(lists := s.lists[t := ListAt(s, t) + [s.chan[0].entry]], chan := s.chan[1..])
  }

  predicate Expired<E, V>(s: State<E, V>, e: E) {
    s.now > At(s, e).expireAt
  }

  predicate Removable<E, V>(s: State<E, V>, e: E) {
    At(s, e).val.None? || Expired(s, e)
  }

  /** True when a visit to list t takes its head. */
  predicate Reaps<E, V>(s: State<E, V>, t: int) {
    ListAt(s, t) != [] && Removable(s, ListAt(s, t)[0])
  }

  function KeySet(k: Option<Key>): set<Key> {
    if k.Some? then {k.value} else {}
  }

  /** Takes the head of list t, deletes whatever its key is bound to and recycles the entry. */
  function Reap<E, V>(s: State<E, V>, t: int): State<E, V>
    requires ListAt(s, t) != []
  {
    var e := s.lists[t][0];
    Evict(s.(lists := s.lists[t := s.lists[t][1..]],
             items := s.items - KeySet(At(s, e).key),
             n := s.n - 1,
             heap := s.heap[e := Blank()],
             pool := s.pool + {e}), At(s, e).val)
  }

  /** One visit of the sweep to one list: it removes the head or nothing. */
  function Visit<E, V>(s: State<E, V>, t: int): State<E, V> {
    if Reaps(s, t) then Reap(s, t) else s
  }

  /** The sweep truncates every TTL key to whole seconds before it looks the list up. */
  function Whole(t: int): int {
    t / SECOND * SECOND
  }

  function Sweep<E, V>(s: State<E, V>, ks: seq<int>): State<E, V>
    decreases |ks|
  {
    if ks == [] then s else Sweep(Visit(s, Whole(ks[0])), ks[1..])
  }

  // ---------- Runs ----------

  datatype Action<E, V> =
    | DoSet(e: E, k: Key, v: V, ttl: int)
    | DoSwap(e: E, k: Key, v: V, ttl: int)
    | DoRemove(k: Key)
    | DoRecv
    | DoVisit(t: int)
    | DoTick(d: nat)

  function Step<E, V>(s: State<E, V>, a: Action<E, V>): State<E, V> {
    match a
    case DoSet(e, k, v, ttl) => Set(s, e, k, v, ttl)
    case DoSwap(e, k, v, ttl) => Swap(s, e, k, v, ttl)
    case DoRemove(k) => RemoveByKey(s, k)
    case DoRecv => Recv(s)
    case DoVisit(t) => Visit(s, t)
    case DoTick(d) => s.(now := s.now + d)
  }

  /** The step makes an entry of its own: a Set, or a Swap that misses. */
  predicate Creates<E, V>(s: State<E, V>, a: Action<E, V>) {
    a.DoSet? || (a.DoSwap? && a.k !in s.items)
  }

  predicate Enabled<E, V>(s: State<E, V>, a: Action<E, V>) {
    Creates(s, a) ==> Obtainable(s, a.e)
  }

  function Run<E, V>(s: State<E, V>, acts: seq<Action<E, V>>): State<E, V> {
    if acts == [] then s else Step(Run(s, acts[..|acts| - 1]), acts[|acts| - 1])
  }

  predicate Allowed<E, V>(s: State<E, V>, acts: seq<Action<E, V>>) {
    acts == [] ||
    (Allowed(s, acts[..|acts| - 1]) && Enabled(Run(s, acts[..|acts| - 1]), acts[|acts| - 1]))
  }

  // ---------- Invariants ----------

  function ChanSet<E>(chan: seq<Msg<E>>): set<E> {
    set m | m in chan :: m.entry
  }

  function ListSet<E>(lists: map<int, seq<E>>): set<E> {
    set t, e | t in lists && e in lists[t] :: e
  }

  function Sched<E, V>(s: State<E, V>): set<E> {
    ChanSet(s.chan) + ListSet(s.lists)
  }

  predicate NoDup<E(==)>(q: seq<E>) {
    forall i, j :: 0 <= i < j < |q| ==> q[i] != q[j]
  }

  predicate ChanNoDup<E(==)>(chan: seq<Msg<E>>) {
    forall i, j :: 0 <= i < j < |chan| ==> chan[i].entry != chan[j].entry
  }

  predicate ListsDisjoint<E(==)>(lists: map<int, seq<E>>) {
    && (forall t :: t in lists ==> NoDup(lists[t]))
    && (forall t, u, e :: t in lists && u in lists && e in lists[t] && e in lists[u] ==> t == u)
  }

  /** Every entry the index knows is in exactly one place: channel, one TTL list, or the pool. */
  ghost predicate Owned<E, V>(s: State<E, V>) {
    && ChanNoDup(s.chan)
    && ListsDisjoint(s.lists)
    && ChanSet(s.chan) !! ListSet(s.lists)
    && s.pool !! Sched(s)
    && s.heap.Keys == s.pool + Sched(s)
  }

  /** A binding leads to a scheduled entry of that key that holds a value. */
  ghost predicate Bound<E, V>(s: State<E, V>) {
    forall k :: k in s.items ==>
      && s.items[k] in Sched(s)
      && At(s, s.items[k]).key == Some(k)
      && At(s, s.items[k]).val.Some?
  }

  /** Scheduled entries carry a key, pooled ones carry nothing at all. */
  ghost predicate Celled<E, V>(s: State<E, V>) {
    && (forall e :: e in Sched(s) ==> At(s, e).key.Some?)
    && (forall e :: e in s.pool ==> At(s, e) == Blank())
  }

  ghost function AnyKey<E>(lists: map<int, seq<E>>): (t: int)
    requires lists != map[]
    ensures t in lists
  {
    var item :| item in lists.Items;
    item.0
  }

  /** The sum of the list sizes. */
  ghost function Total<E>(lists: map<int, seq<E>>): nat
    decreases |lists|
  {
    if lists == map[] then 0 else |lists[AnyKey(lists)]| + Total(lists - {AnyKey(lists)})
  }

  ghost predicate Counted<E, V>(s: State<E, V>) {
    s.n == |s.chan| + Total(s.lists)
  }

  /** No list is keyed by less than a second. */
  predicate Keyed<E, V>(s: State<E, V>) {
    forall t :: t in s.lists ==> t >= SECOND
  }

  ghost predicate Inv<E, V>(s: State<E, V>) {
    Owned(s) && Bound(s) && Celled(s) && Counted(s) && Keyed(s)
  }
}
