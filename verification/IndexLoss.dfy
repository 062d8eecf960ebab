/**
 When the worker alone, at the pace of its timer, takes an unexpired key out of the index.
 */
module IndexLoss {
  import opened Wrappers
  import opened Index
  import opened IndexInvariant
  import opened IndexDrain
  import opened IndexExpiry

  // ---------- The worker ----------

  /** The index, and the instant before which the timer does not fire. */
  datatype Worker<E(==), V> = Worker(kv: State<E, V>, next: int)

  /** What the worker and the clock do; a sweep is over all lists, and sets the timer to a second. */
  datatype Work =
    | Receive
    | Wait(d: nat)
    | SweepAll(ks: seq<int>)

  function Turn<E, V>(w: Worker<E, V>, a: Work): Worker<E, V> {
    match a
    case Receive => w.(kv := Recv(w.kv))
    case Wait(d) => w.(kv := w.kv.(now := w.kv.now + d))
    case SweepAll(ks) => Worker(Sweep(w.kv, ks), w.kv.now + SECOND)
  }

  predicate CanTurn<E, V>(w: Worker<E, V>, a: Work) {
    a.SweepAll? ==> w.next <= w.kv.now && Enumerates(a.ks, w.kv.lists.Keys) && Increasing(a.ks)
  }

  function After<E, V>(w: Worker<E, V>, acts: seq<Work>): Worker<E, V>
    decreases |acts|
  {
    if acts == [] then w else After(Turn(w, acts[0]), acts[1..])
  }

  predicate CanWork<E, V>(w: Worker<E, V>, acts: seq<Work>)
    decreases |acts|
  {
    acts == [] || (CanTurn(w, acts[0]) && CanWork(Turn(w, acts[0]), acts[1..]))
  }

  ghost predicate Loses<E, V>(w: Worker<E, V>, acts: seq<Work>, k: Key, end: int) {
    CanWork(w, acts) && k !in After(w, acts).kv.items && After(w, acts).kv.now <= end
  }

  /** The worker and the clock can take k out no later than `end`. */
  ghost predicate CanLose<E(!new), V(!new)>(w: Worker<E, V>, k: Key, end: int) {
    exists acts :: Loses(w, acts, k, end)
  }

  lemma FirstTurn<E, V>(w: Worker<E, V>, a: Work, acts: seq<Work>)
    ensures After(w, [a] + acts) == After(Turn(w, a), acts)
    ensures CanWork(w, [a] + acts) <==> CanTurn(w, a) && CanWork(Turn(w, a), acts)
  {
    assert ([a] + acts)[1..] == acts;
  }

  // ---------- What is in the way ----------

  /** How many sweeps there is time for until `end`, one a second. */
  function SweepsLeft(now: int, next: int, end: int): nat {
    var start := if now < next then next else now;
    if end < start then 0 else (end - start) / SECOND + 1
  }

  /** The lists there will be when the channel is empty. */
  function ListKeys<E, V>(s: State<E, V>): set<int> {
    s.lists.Keys + set m | m in s.chan :: ListTtl(m.ttl)
  }

  /** How often a sweep over all of them visits list t: once for itself and once for each fractional TTL above it. */
  function PerSweep<E, V>(s: State<E, V>, t: int): nat {
    |set u | u in ListKeys(s) && Whole(u) == t|
  }

  /** A tombstone, or an entry that has expired before `end`. */
  predicate GoneBefore<E, V>(s: State<E, V>, e: E, end: int) {
    At(s, e).val.None? || At(s, e).expireAt < end
  }

  /** When an entry d places ahead has to be reaped, if v go a sweep and the last sweep is at `end`. */
  function Due(end: int, d: nat, v: nat): int
    requires v > 0
  {
    end - d / v * SECOND
  }

  /**
   The i-th entry of list t and its part of the channel has key k. What is left of this sweep, b visits, and n more
   sweeps of v visits reach it, and it and all before it are gone in time for that.
   */
  predicate InTheWay<E, V>(s: State<E, V>, t: int, i: nat, v: nat, b: nat, n: nat, k: Key, end: int) {
    && t % SECOND == 0 && i < |Queue(s, t)| && At(s, Queue(s, t)[i]).key == Some(k)
    && v > 0 && i < b + n * v
    && forall j :: 0 <= j <= i ==> GoneBefore(s, Queue(s, t)[j], Due(end, i - j, v))
  }

  ghost predicate Threatened<E, V>(w: Worker<E, V>, k: Key, end: int) {
    exists t, i :: InTheWay(w.kv, t, i, PerSweep(w.kv, t), 0, SweepsLeft(w.kv.now, w.next, end), k, end)
  }

  lemma ProductGrows(m: nat, n: nat, v: nat)
    requires m <= n
    ensures m * v <= n * v && (n + 1) * v == n * v + v
  {
  }

  lemma Quotient(d: nat, v: nat, n: nat)
    requires v > 0
    ensures n <= d / v <==> n * v <= d
  {
    assert d == d / v * v + d % v;
    if n <= d / v {
      ProductGrows(n, d / v, v);
    } else {
      ProductGrows(d / v + 1, n, v);
      ProductGrows(d / v, n, v);
    }
  }

  lemma DueInTime(end: int, d: nat, v: nat, n: nat)
    requires v > 0
    ensures d < v + n * v ==> Due(end, d, v) >= end - n * SECOND
    ensures n * v <= d ==> Due(end, d, v) <= end - n * SECOND
  {
    Quotient(d, v, n);
    Quotient(d, v, n + 1);
    ProductGrows(n, n, v);
  }

  // ---------- One visit ----------

  /** Reaping a head takes it off its queue; entries that stay queued keep their fields. */
  lemma QueueAfterReap<E, V>(s: State<E, V>, t: int, u: int)
    requires Inv(s) && Reaps(s, t)
    ensures Queue(s, t) == [ListAt(s, t)[0]] + Queue(s, t)[1..]
    ensures Queue(Visit(s, t), u) == if u == t then Queue(s, t)[1..] else Queue(s, u)
    ensures forall e :: e in Queue(Visit(s, t), u) ==> At(Visit(s, t), e) == At(s, e)
  {
    var s' := Visit(s, t);
    VisitKeeps(s, t);
    Placed(s', u);
    assert ListAt(s, t)[0] in s'.pool && s'.pool !! Sched(s');
  }

  /** The same, position by position. */
  lemma QueueAt<E, V>(s: State<E, V>, t: int, u: int, j: nat)
    requires Inv(s) && Reaps(s, t) && j < |Queue(Visit(s, t), u)|
    ensures var j0 := if u == t then j + 1 else j;
            && j0 < |Queue(s, u)| && Queue(s, u)[j0] == Queue(Visit(s, t), u)[j]
            && At(Visit(s, t), Queue(s, u)[j0]) == At(s, Queue(s, u)[j0])
  {
    QueueAfterReap(s, t, u);
    hide Inv, Reaps, Visit, Queue;
    assert Queue(Visit(s, t), u)[j] in Queue(Visit(s, t), u);
  }

  lemma SizeAfterReap<E, V>(s: State<E, V>, t: int, u: int)
    requires Inv(s) && Reaps(s, t)
    ensures |Queue(Visit(s, t), u)| == if u == t then |Queue(s, u)| - 1 else |Queue(s, u)|
    ensures Queue(s, t) != [] && Queue(s, t)[0] == ListAt(s, t)[0]
  {
    QueueAfterReap(s, t, u);
  }

  lemma VisitSame<E, V>(s: State<E, V>, t: int)
    ensures Visit(s, t).now == s.now && Visit(s, t).chan == s.chan && Visit(s, t).lists.Keys == s.lists.Keys
    ensures forall u :: PerSweep(Visit(s, t), u) == PerSweep(s, u)
    ensures forall e :: At(Visit(s, t), e) == At(s, e) || At(Visit(s, t), e) == Blank()
  {
    assert ListKeys(Visit(s, t)) == ListKeys(s);
  }

  lemma {:induction false} SweepSame<E, V>(s: State<E, V>, ks: seq<int>)
    ensures Sweep(s, ks).now == s.now && Sweep(s, ks).chan == s.chan && Sweep(s, ks).lists.Keys == s.lists.Keys
    ensures forall t :: PerSweep(Sweep(s, ks), t) == PerSweep(s, t)
    ensures forall k :: k !in s.items ==> k !in Sweep(s, ks).items
    decreases |ks|
  {
    if ks != [] {
      VisitSame(s, Whole(ks[0]));
      SweepSame(Visit(s, Whole(ks[0])), ks[1..]);
    }
  }

  // ---------- How often a sweep visits a list ----------

  /** The keys in ks that are truncated to t. */
  function Truncated(ks: seq<int>, t: int): set<int> {
    set u | u in ks && Whole(u) == t
  }

  lemma HeadOnce(ks: seq<int>, t: int)
    requires NoDup(ks) && ks != []
    ensures NoDup(ks[1..]) && ks[0] !in Truncated(ks[1..], t)
    ensures Truncated(ks, t) == Truncated(ks[1..], t) + if Whole(ks[0]) == t then {ks[0]} else {}
  {
    assert ks == [ks[0]] + ks[1..];
    forall i | 0 <= i < |ks[1..]| ensures ks[1..][i] != ks[0] {
    }
  }

  lemma {:induction false} VisitsCount(ks: seq<int>, t: int)
    requires NoDup(ks)
    ensures Visits(ks, t) == |Truncated(ks, t)|
  {
    if ks != [] {
      HeadOnce(ks, t);
      VisitsCount(ks[1..], t);
      hide Truncated;
    }
  }

  lemma SmallerSet(a: set<int>, b: set<int>)
    requires a <= b
    ensures |a| <= |b|
  {
    assert b == a + (b - a);
  }

  lemma SweepVisits<E, V>(s: State<E, V>, ks: seq<int>, t: int)
    requires Enumerates(ks, s.lists.Keys)
    ensures Visits(ks, t) <= PerSweep(s, t)
    ensures s.chan == [] ==> Visits(ks, t) == PerSweep(s, t)
  {
    VisitsCount(ks, t);
    assert forall u :: u in ks ==> u in (set k | k in ks);
    assert forall u :: u in (set k | k in ks) ==> u in ks;
    SmallerSet(Truncated(ks, t), set u | u in ListKeys(s) && Whole(u) == t);
    if s.chan == [] {
      assert Truncated(ks, t) == set u | u in ListKeys(s) && Whole(u) == t;
    }
  }

  /** A list that has or will have an entry is visited. */
  lemma VisitedOnce<E, V>(s: State<E, V>, t: int)
    requires t % SECOND == 0 && Queue(s, t) != []
    ensures PerSweep(s, t) > 0
  {
    if t !in s.lists {
      WaitingFor(s.chan, t);
    }
    assert t in ListKeys(s) && Whole(t) == t;
    SmallerSet({t}, set u | u in ListKeys(s) && Whole(u) == t);
  }

  lemma {:induction false} WaitingFor<E>(chan: seq<Msg<E>>, t: int)
    requires Waiting(chan, t) != []
    ensures exists m :: m in chan && ListTtl(m.ttl) == t
  {
    if ListTtl(chan[0].ttl) == t {
      assert chan[0] in chan;
    } else {
      WaitingFor(chan[1..], t);
    }
  }

  // ---------- Without a threat nothing is lost ----------

  /** k is bound to e, which holds a value until `end`. */
  predicate BoundTo<E, V>(s: State<E, V>, k: Key, e: E, end: int) {
    k in s.items && s.items[k] == e && At(s, e).val.Some? && At(s, e).expireAt == end && s.now <= end
  }

  /** In the middle of a sweep, with ks to visit: nothing of k is in the way. */
  ghost predicate NoneInTheWay<E, V>(s: State<E, V>, ks: seq<int>, n: nat, k: Key, end: int) {
    forall t, i :: !InTheWay(s, t, i, PerSweep(s, t), Visits(ks, t), n, k, end)
  }

  /** What is in the way after a head is reaped was in the way before. */
  lemma WayBefore<E, V>(s: State<E, V>, x: int, t: int, i: nat, v: nat, b: nat, n: nat, k: Key, end: int)
    requires Inv(s) && Reaps(s, x) && n == (end - s.now) / SECOND && s.now <= end
    requires InTheWay(Visit(s, x), t, i, v, b, n, k, end) && (x == t ==> b < v)
    ensures InTheWay(s, t, if x == t then i + 1 else i, v, if x == t then b + 1 else b, n, k, end)
  {
    hide Inv, Visit, Queue, Due, At;
    var s' := Visit(s, x);
    var d := if x == t then 1 else 0;
    SizeAfterReap(s, x, t);
    QueueAt(s, x, t, i);
    if x == t {
      DueInTime(end, i + 1, v, n);
      assert GoneBefore(s, Queue(s, t)[0], Due(end, i + 1, v));
    }
    hide Reaps;
    forall j | 0 <= j <= i + d ensures GoneBefore(s, Queue(s, t)[j], Due(end, i + d - j, v)) {
      if j >= d {
        QueueAt(s, x, t, j - d);
        assert GoneBefore(s', Queue(s', t)[j - d], Due(end, i - (j - d), v));
      }
    }
  }

  lemma VisitSafe<E, V>(s: State<E, V>, ks: seq<int>, n: nat, k: Key, e: E, end: int)
    requires Inv(s) && BoundTo(s, k, e, end) && ks != [] && NoneInTheWay(s, ks, n, k, end)
    requires n == (end - s.now) / SECOND && forall t :: Visits(ks, t) <= PerSweep(s, t)
    ensures var s' := Visit(s, Whole(ks[0]));
            BoundTo(s', k, e, end) && NoneInTheWay(s', ks[1..], n, k, end)
  {
    var x := Whole(ks[0]);
    var s' := Visit(s, x);
    VisitSame(s, x);
    if Reaps(s, x) {
      HeadOther(s, ks, n, k, end);
    }
    HeadUnbound(s, x, k, e, end);
    hide Visit, Reaps, Inv, Queue, BoundTo, PerSweep, InTheWay;
    forall t, i: nat ensures !InTheWay(s', t, i, PerSweep(s', t), Visits(ks[1..], t), n, k, end) {
      assert Visits(ks, t) == (if x == t then 1 else 0) + Visits(ks[1..], t);
      assert !InTheWay(s, t, i, PerSweep(s, t), Visits(ks, t), n, k, end);
      assert !InTheWay(s, t, i + 1, PerSweep(s, t), Visits(ks, t), n, k, end);
      if InTheWay(s', t, i, PerSweep(s', t), Visits(ks[1..], t), n, k, end) {
        NotBefore(s, x, t, i, PerSweep(s, t), Visits(ks[1..], t), n, k, end);
      }
    }
  }

  lemma NotBefore<E, V>(s: State<E, V>, x: int, t: int, i: nat, v: nat, b: nat, n: nat, k: Key, end: int)
    requires Inv(s) && n == (end - s.now) / SECOND && s.now <= end && (x == t ==> b < v)
    requires InTheWay(Visit(s, x), t, i, v, b, n, k, end)
    ensures var b0 := if x == t then b + 1 else b;
            InTheWay(s, t, i, v, b0, n, k, end) || InTheWay(s, t, i + 1, v, b0, n, k, end)
  {
    if Reaps(s, x) {
      WayBefore(s, x, t, i, v, b, n, k, end);
    }
  }

  /** A head that is reaped has another key. */
  lemma HeadOther<E, V>(s: State<E, V>, ks: seq<int>, n: nat, k: Key, end: int)
    requires Inv(s) && ks != [] && Reaps(s, Whole(ks[0])) && NoneInTheWay(s, ks, n, k, end) && s.now <= end
    ensures At(s, ListAt(s, Whole(ks[0]))[0]).key != Some(k)
  {
    var x := Whole(ks[0]);
    SizeAfterReap(s, x, x);
    VisitedOnce(s, x);
    var v := PerSweep(s, x);
    ProductGrows(0, n, v);
    assert 0 / v == 0;
    assert !InTheWay(s, x, 0, v, Visits(ks, x), n, k, end);
  }

  lemma HeadUnbound<E, V>(s: State<E, V>, x: int, k: Key, e: E, end: int)
    requires Inv(s) && BoundTo(s, k, e, end) && (Reaps(s, x) ==> At(s, ListAt(s, x)[0]).key != Some(k))
    ensures BoundTo(Visit(s, x), k, e, end)
  {
  }

  lemma {:induction false} SweepSafe<E, V>(s: State<E, V>, ks: seq<int>, n: nat, k: Key, e: E, end: int)
    requires Inv(s) && BoundTo(s, k, e, end) && NoneInTheWay(s, ks, n, k, end)
    requires n == (end - s.now) / SECOND && forall t :: Visits(ks, t) <= PerSweep(s, t)
    ensures BoundTo(Sweep(s, ks), k, e, end) && NoneInTheWay(Sweep(s, ks), [], n, k, end)
    decreases |ks|
  {
    if ks != [] {
      var x := Whole(ks[0]);
      VisitSafe(s, ks, n, k, e, end);
      VisitSame(s, x);
      VisitKeeps(s, x);
      assert forall t :: Visits(ks, t) == (if x == t then 1 else 0) + Visits(ks[1..], t);
      SweepSafe(Visit(s, x), ks[1..], n, k, e, end);
    }
  }

  /** More visits reach what fewer reach. */
  lemma MoreVisits<E, V>(s: State<E, V>, t: int, i: nat, v: nat, b: nat, n: nat, m: nat, k: Key, end: int)
    requires InTheWay(s, t, i, v, b, n, k, end) && ((n <= m && b == 0) || (n < m && b <= v))
    ensures InTheWay(s, t, i, v, 0, m, k, end)
  {
    ProductGrows(n, m, v);
    if n + 1 <= m {
      ProductGrows(n + 1, m, v);
      ProductGrows(n, n, v);
    }
  }

  lemma OneSweepLess(now: int, next: int, end: int)
    requires next <= now <= end
    ensures var n := (end - now) / SECOND;
            n >= 0 && SweepsLeft(now, next, end) == n + 1 && SweepsLeft(now, now + SECOND, end) == n
  {
  }

  lemma SweepBegins<E, V>(w: Worker<E, V>, ks: seq<int>, k: Key, end: int)
    requires !Threatened(w, k, end) && CanTurn(w, SweepAll(ks)) && w.kv.now <= end
    ensures NoneInTheWay(w.kv, ks, (end - w.kv.now) / SECOND, k, end)
  {
    OneSweepLess(w.kv.now, w.next, end);
    var s, n, m := w.kv, (end - w.kv.now) / SECOND, SweepsLeft(w.kv.now, w.next, end);
    hide InTheWay, PerSweep, Visits, Enumerates, SweepsLeft;
    forall t, i: nat ensures !InTheWay(s, t, i, PerSweep(s, t), Visits(ks, t), n, k, end) {
      SweepVisits(s, ks, t);
      assert !InTheWay(s, t, i, PerSweep(s, t), 0, m, k, end);
      if InTheWay(s, t, i, PerSweep(s, t), Visits(ks, t), n, k, end) {
        MoreVisits(s, t, i, PerSweep(s, t), Visits(ks, t), n, m, k, end);
      }
    }
  }

  lemma SweepEnds<E, V>(w: Worker<E, V>, k: Key, end: int)
    requires w.next == w.kv.now + SECOND && w.kv.now <= end
    requires NoneInTheWay(w.kv, [], (end - w.kv.now) / SECOND, k, end)
    ensures !Threatened(w, k, end)
  {
    OneSweepLess(w.kv.now, w.kv.now, end);
    var s, n := w.kv, (end - w.kv.now) / SECOND;
    hide InTheWay, PerSweep, SweepsLeft;
    forall t, i: nat ensures !InTheWay(s, t, i, PerSweep(s, t), 0, n, k, end) {
      assert !InTheWay(s, t, i, PerSweep(s, t), Visits([], t), n, k, end);
    }
  }

  lemma SweepAllSafe<E, V>(w: Worker<E, V>, ks: seq<int>, k: Key, e: E, end: int)
    requires Inv(w.kv) && BoundTo(w.kv, k, e, end) && !Threatened(w, k, end) && CanTurn(w, SweepAll(ks))
    ensures BoundTo(Sweep(w.kv, ks), k, e, end) && !Threatened(Turn(w, SweepAll(ks)), k, end)
  {
    hide Threatened, NoneInTheWay, PerSweep, Sweep, Inv, Enumerates, Increasing, Visits;
    var s := w.kv;
    SweepSame(s, ks);
    forall t ensures Visits(ks, t) <= PerSweep(s, t) {
      SweepVisits(s, ks, t);
    }
    SweepBegins(w, ks, k, end);
    SweepSafe(s, ks, (end - s.now) / SECOND, k, e, end);
    SweepEnds(Turn(w, SweepAll(ks)), k, end);
  }

  lemma ReceiveSafe<E, V>(w: Worker<E, V>, k: Key, end: int)
    requires !Threatened(w, k, end)
    ensures !Threatened(Turn(w, Receive), k, end)
  {
    var s, s', n := w.kv, Recv(w.kv), SweepsLeft(w.kv.now, w.next, end);
    hide SweepsLeft;
    forall t, i ensures !InTheWay(s', t, i, PerSweep(s', t), 0, n, k, end) {
      ReceiveSame(s, t);
      assert !InTheWay(s, t, i, PerSweep(s, t), 0, n, k, end);
    }
  }

  lemma ReceiveSame<E, V>(s: State<E, V>, t: int)
    ensures Queue(Recv(s), t) == Queue(s, t) && PerSweep(Recv(s), t) == PerSweep(s, t)
  {
    RecvQueue(s, t);
    if s.chan != [] {
      assert s.chan == [s.chan[0]] + s.chan[1..];
      assert ListKeys(Recv(s)) == ListKeys(s);
    }
  }

  lemma WaitSafe<E, V>(w: Worker<E, V>, d: nat, k: Key, end: int)
    requires !Threatened(w, k, end)
    ensures !Threatened(Turn(w, Wait(d)), k, end)
  {
    var s, s' := w.kv, w.kv.(now := w.kv.now + d);
    var n, n' := SweepsLeft(s.now, w.next, end), SweepsLeft(s'.now, w.next, end);
    assert n' <= n;
    hide SweepsLeft;
    forall t, i ensures !InTheWay(s', t, i, PerSweep(s', t), 0, n', k, end) {
      assert !InTheWay(s, t, i, PerSweep(s, t), 0, n, k, end);
      if InTheWay(s', t, i, PerSweep(s', t), 0, n', k, end) {
        MoreVisits(s, t, i, PerSweep(s, t), 0, n', n, k, end);
      }
    }
  }

  lemma TurnKeeps<E, V>(w: Worker<E, V>, a: Work)
    requires Inv(w.kv)
    ensures Inv(Turn(w, a).kv) && Turn(w, a).kv.now >= w.kv.now
  {
    match a
    case Receive => RecvKeeps(w.kv);
    case Wait(d) => SameKeeps(w.kv, w.kv.(now := w.kv.now + d));
    case SweepAll(ks) =>
      SweepKeeps(w.kv, ks);
      SweepSame(w.kv, ks);
  }

  lemma {:induction false} TimeGrows<E, V>(w: Worker<E, V>, acts: seq<Work>)
    requires Inv(w.kv)
    ensures After(w, acts).kv.now >= w.kv.now
    decreases |acts|
  {
    hide Inv;
    if acts != [] {
      TurnKeeps(w, acts[0]);
      TimeGrows(Turn(w, acts[0]), acts[1..]);
    }
  }

  lemma {:induction false} NothingLostUntil<E, V>(w: Worker<E, V>, acts: seq<Work>, k: Key, e: E, end: int)
    requires Inv(w.kv) && BoundTo(w.kv, k, e, end) && !Threatened(w, k, end)
    requires CanWork(w, acts) && After(w, acts).kv.now <= end
    ensures BoundTo(After(w, acts).kv, k, e, end)
    decreases |acts|
  {
    if acts != [] {
      var a := acts[0];
      TurnKeeps(w, a);
      TimeGrows(Turn(w, a), acts[1..]);
      hide Inv, Threatened;
      match a {
        case Receive => ReceiveSafe(w, k, end);
        case Wait(d) => WaitSafe(w, d, k, end);
        case SweepAll(ks) => SweepAllSafe(w, ks, k, e, end);
      }
      NothingLostUntil(Turn(w, a), acts[1..], k, e, end);
    }
  }

  // ---------- With a threat it can be ----------

  lemma {:induction false} KeysInOrder<T>(lists: map<int, T>) returns (ks: seq<int>)
    ensures Increasing(ks) && forall k :: k in ks <==> k in lists.Keys
    decreases |lists|
  {
    ks := [];
    if lists != map[] {
      var item :| item in lists.Items;
      var rest := KeysInOrder(lists - {item.0});
      ks := Insert(rest, item.0);
    }
  }

  lemma SweepOrder<T>(lists: map<int, T>) returns (ks: seq<int>)
    ensures Enumerates(ks, lists.Keys) && Increasing(ks)
  {
    ks := KeysInOrder(lists);
    assert forall k :: k in (set j | j in ks) <==> k in lists.Keys;
  }

  /** A visit brings what is in the way one place nearer, unless there is time for that in later sweeps. */
  lemma VisitNearer<E, V>(s: State<E, V>, x: int, t: int, i: nat, v: nat, b: nat, n: nat, k: Key, end: int)
    returns (lost: bool, j: nat)
    requires Inv(s) && s.chan == [] && s.now == end - n * SECOND
    requires InTheWay(s, t, i, v, if x == t then b + 1 else b, n, k, end)
    ensures lost ==> k !in Visit(s, x).items
    ensures !lost ==> InTheWay(Visit(s, x), t, j, v, b, n, k, end)
  {
    lost, j := false, i;
    assert ListAt(s, t) == Queue(s, t);
    if Reaps(s, x) {
      SizeAfterReap(s, x, t);
      if x == t && i == 0 {
        lost := true;
      } else {
        j := if x == t then i - 1 else i;
        WayAfter(s, x, t, i, v, b, n, k, end);
      }
    } else if x == t {
      DueInTime(end, i, v, n);
      assert GoneBefore(s, Queue(s, t)[0], Due(end, i - 0, v));
    }
  }

  lemma WayAfter<E, V>(s: State<E, V>, x: int, t: int, i: nat, v: nat, b: nat, n: nat, k: Key, end: int)
    requires Inv(s) && Reaps(s, x) && (x == t ==> i > 0)
    requires InTheWay(s, t, i, v, if x == t then b + 1 else b, n, k, end)
    ensures InTheWay(Visit(s, x), t, if x == t then i - 1 else i, v, b, n, k, end)
  {
    hide Inv, Visit, Queue, Due, Reaps, At;
    var s' := Visit(s, x);
    var d := if x == t then 1 else 0;
    SizeAfterReap(s, x, t);
    QueueAt(s, x, t, i - d);
    forall j | 0 <= j <= i - d ensures GoneBefore(s', Queue(s', t)[j], Due(end, i - d - j, v)) {
      QueueAt(s, x, t, j);
      assert GoneBefore(s, Queue(s, t)[j + d], Due(end, i - (j + d), v));
    }
  }

  lemma {:induction false} SweepNearer<E, V>(
    s: State<E, V>, ks: seq<int>, t: int, i: nat, v: nat, n: nat, k: Key, end: int)
    returns (lost: bool, j: nat)
    requires Inv(s) && s.chan == [] && s.now == end - n * SECOND
    requires InTheWay(s, t, i, v, Visits(ks, t), n, k, end)
    ensures lost ==> k !in Sweep(s, ks).items
    ensures !lost ==> InTheWay(Sweep(s, ks), t, j, v, 0, n, k, end)
    decreases |ks|
  {
    lost, j := false, i;
    if ks != [] {
      var x := Whole(ks[0]);
      var s1 := Visit(s, x);
      VisitSame(s, x);
      VisitKeeps(s, x);
      hide Inv, InTheWay, Visit;
      lost, j := VisitNearer(s, x, t, i, v, Visits(ks[1..], t), n, k, end);
      if lost {
        SweepSame(s1, ks[1..]);
      } else {
        lost, j := SweepNearer(s1, ks[1..], t, j, v, n, k, end);
      }
    }
  }

  lemma FullSweep<E, V>(s: State<E, V>, t: int, i: nat, v: nat, n: nat, k: Key, end: int)
    requires n > 0 && InTheWay(s, t, i, v, 0, n, k, end)
    ensures InTheWay(s, t, i, v, v, n - 1, k, end)
  {
    ProductGrows(n - 1, n, v);
  }

  /** A sweep with n - 1 more to come. */
  lemma OneSweep<E, V>(w: Worker<E, V>, t: int, i: nat, v: nat, n: nat, k: Key, end: int)
    returns (ks: seq<int>, lost: bool, j: nat)
    requires Inv(w.kv) && w.kv.chan == [] && n > 0 && w.kv.now == end - (n - 1) * SECOND && w.next <= w.kv.now
    requires v == PerSweep(w.kv, t) && InTheWay(w.kv, t, i, v, 0, n, k, end)
    ensures CanTurn(w, SweepAll(ks))
    ensures var s' := Sweep(w.kv, ks);
            && Inv(s') && s'.chan == [] && s'.now == w.kv.now && PerSweep(s', t) == v
            && if lost then k !in s'.items else InTheWay(s', t, j, v, 0, n - 1, k, end)
  {
    hide Inv, InTheWay, Sweep, PerSweep, Enumerates, Increasing, Visits;
    ks := SweepOrder(w.kv.lists);
    SweepVisits(w.kv, ks, t);
    SweepKeeps(w.kv, ks);
    SweepSame(w.kv, ks);
    FullSweep(w.kv, t, i, v, n, k, end);
    lost, j := SweepNearer(w.kv, ks, t, i, v, n - 1, k, end);
  }

  /** n more sweeps, a second apart and the last of them at `end`. */
  lemma {:induction false} SweepsLose<E, V>(w: Worker<E, V>, t: int, i: nat, n: nat, k: Key, end: int)
    returns (acts: seq<Work>)
    requires Inv(w.kv) && w.kv.chan == [] && n > 0 && w.kv.now == end - (n - 1) * SECOND && w.next <= w.kv.now
    requires InTheWay(w.kv, t, i, PerSweep(w.kv, t), 0, n, k, end)
    ensures Loses(w, acts, k, end)
    decreases n
  {
    hide Inv, InTheWay, Sweep, PerSweep, Enumerates, Increasing;
    var v := PerSweep(w.kv, t);
    var ks, lost, j := OneSweep(w, t, i, v, n, k, end);
    var a := SweepAll(ks);
    var w1 := Turn(w, a);
    if lost {
      acts := [a] + [];
      FirstTurn(w, a, []);
    } else {
      var w2 := Turn(w1, Wait(SECOND));
      TurnKeeps(w1, Wait(SECOND));
      WaitSame(w1.kv, SECOND, t, j, v, n - 1, k, end);
      var rest := SweepsLose(w2, t, j, n - 1, k, end);
      acts := [a] + ([Wait(SECOND)] + rest);
      FirstTurn(w, a, [Wait(SECOND)] + rest);
      FirstTurn(w1, Wait(SECOND), rest);
    }
  }

  lemma WaitSame<E, V>(s: State<E, V>, d: nat, t: int, i: nat, v: nat, n: nat, k: Key, end: int)
    requires InTheWay(s, t, i, v, 0, n, k, end)
    ensures var s' := s.(now := s.now + d); PerSweep(s', t) == PerSweep(s, t) && InTheWay(s', t, i, v, 0, n, k, end)
    ensures n > 0
  {
    var s' := s.(now := s.now + d);
    assert Queue(s', t) == Queue(s, t);
  }

  /** The worker first takes everything out of the channel. */
  lemma {:induction false} ReceiveAll<E, V>(w: Worker<E, V>) returns (acts: seq<Work>)
    requires Inv(w.kv)
    ensures CanWork(w, acts)
    ensures var w' := After(w, acts);
            && Inv(w'.kv) && w'.kv.chan == [] && w'.kv.now == w.kv.now && w'.next == w.next && w'.kv.heap == w.kv.heap
            && forall t :: Queue(w'.kv, t) == Queue(w.kv, t) && PerSweep(w'.kv, t) == PerSweep(w.kv, t)
    decreases |w.kv.chan|
  {
    acts := [];
    if w.kv.chan != [] {
      TurnKeeps(w, Receive);
      forall t ensures Queue(Recv(w.kv), t) == Queue(w.kv, t) && PerSweep(Recv(w.kv), t) == PerSweep(w.kv, t) {
        ReceiveSame(w.kv, t);
      }
      hide Inv, Queue, PerSweep;
      var rest := ReceiveAll(Turn(w, Receive));
      acts := [Receive] + rest;
      FirstTurn(w, Receive, rest);
    }
  }

  lemma {:induction false} WorkOn<E, V>(w: Worker<E, V>, acts: seq<Work>, more: seq<Work>)
    requires CanWork(w, acts)
    ensures After(w, acts + more) == After(After(w, acts), more)
    ensures CanWork(w, acts + more) <==> CanWork(After(w, acts), more)
    decreases |acts|
  {
    if acts == [] {
      assert acts + more == more;
    } else {
      assert acts + more == [acts[0]] + (acts[1..] + more);
      FirstTurn(w, acts[0], acts[1..] + more);
      WorkOn(Turn(w, acts[0]), acts[1..], more);
    }
  }

  /** With an empty channel: wait for the first of the last n sweeps there is time for. */
  lemma WaitAndSweep<E, V>(w: Worker<E, V>, t: int, i: nat, k: Key, end: int) returns (acts: seq<Work>)
    requires Inv(w.kv) && w.kv.chan == []
    requires InTheWay(w.kv, t, i, PerSweep(w.kv, t), 0, SweepsLeft(w.kv.now, w.next, end), k, end)
    ensures Loses(w, acts, k, end)
  {
    var n := SweepsLeft(w.kv.now, w.next, end);
    assert n > 0;
    var d := end - (n - 1) * SECOND - w.kv.now;
    var w1 := Turn(w, Wait(d));
    TurnKeeps(w, Wait(d));
    WaitSame(w.kv, d, t, i, PerSweep(w.kv, t), n, k, end);
    var rest := SweepsLose(w1, t, i, n, k, end);
    acts := [Wait(d)] + rest;
    FirstTurn(w, Wait(d), rest);
  }

  lemma ThreatLoses<E(!new), V(!new)>(w: Worker<E, V>, t: int, i: nat, k: Key, end: int)
    requires Inv(w.kv)
    requires InTheWay(w.kv, t, i, PerSweep(w.kv, t), 0, SweepsLeft(w.kv.now, w.next, end), k, end)
    ensures CanLose(w, k, end)
  {
    var first := ReceiveAll(w);
    var w1 := After(w, first);
    assert Queue(w1.kv, t) == Queue(w.kv, t) && PerSweep(w1.kv, t) == PerSweep(w.kv, t);
    hide Inv, Queue, PerSweep, SweepsLeft;
    var rest := WaitAndSweep(w1, t, i, k, end);
    WorkOn(w, first, rest);
    assert Loses(w, first + rest, k, end);
  }

  /**
   From any state with an unexpired binding of k: the worker and the clock alone can unbind k before it expires if and
   only if an entry of k is queued in a list that sweeps visit, the sweeps there is still time for, a second apart,
   come as far as it, and it and all before it are gone by the sweep that has to take them.
   */
  lemma LosesIff<E(!new), V(!new)>(w: Worker<E, V>, k: Key)
    requires Inv(w.kv) && k in w.kv.items && !Removable(w.kv, w.kv.items[k])
    ensures var end := At(w.kv, w.kv.items[k]).expireAt;
            CanLose(w, k, end) <==> Threatened(w, k, end)
  {
    var e := w.kv.items[k];
    var end := At(w.kv, e).expireAt;
    if Threatened(w, k, end) {
      var t, i :| InTheWay(w.kv, t, i, PerSweep(w.kv, t), 0, SweepsLeft(w.kv.now, w.next, end), k, end);
      ThreatLoses(w, t, i, k, end);
    } else if CanLose(w, k, end) {
      var acts :| Loses(w, acts, k, end);
      NothingLostUntil(w, acts, k, e, end);
    }
  }
}
