/**
 No reader loses its item: what every step keeps, and what it never changes.
 */
module RefsSafety {
  import opened Wrappers
  import Index
  import opened IndexInvariant
  import opened IndexLive
  import opened Log
  import opened Refs

  // ---------- What a step of the index does to the stored items ----------

  predicate Brings<E, I>(i: Index.Action<E, I>) {
    i.DoSet? || i.DoSwap?
  }

  lemma StoredBy<E, I>(kv: Index.State<E, I>, e: E)
    requires Index.Inv(kv) && Live(kv, e)
    ensures Index.At(kv, e).val.value in Stored(kv)
  {
    assert e in kv.heap;
  }

  /** Nothing comes into the index but what the step brings. */
  lemma StoredFrom<E, I>(kv: Index.State<E, I>, i: Index.Action<E, I>)
    requires Index.Inv(kv) && Index.Enabled(kv, i)
    ensures Stored(Index.Step(kv, i)) <= Stored(kv) + (if Brings(i) then {i.v} else {})
  {
    var kv' := Index.Step(kv, i);
    forall x | x in Stored(kv') && x !in Stored(kv) ensures Brings(i) && x == i.v {
      var e :| e in kv'.heap && Live(kv', e) && Index.At(kv', e).val.value == x;
      LiveFrom(kv, i, e);
      if Live(kv, e) {
        StoredBy(kv, e);
      }
    }
  }

  /** The entry that a step of the index gives its value to. */
  function Target<E, I>(kv: Index.State<E, I>, i: Index.Action<E, I>): E
    requires Brings(i)
  {
    if i.DoSwap? && i.k in kv.items then kv.items[i.k] else i.e
  }

  lemma CameFrom<E, I>(kv: Index.State<E, I>, i: Index.Action<E, I>, e: E)
    requires Index.Inv(kv) && Index.Enabled(kv, i) && Live(Index.Step(kv, i), e)
    ensures var val := Index.At(Index.Step(kv, i), e).val;
            || (Live(kv, e) && val == Index.At(kv, e).val && val.value in Stored(kv))
            || (Brings(i) && e == Target(kv, i) && val == Some(i.v))
  {
    LiveFrom(kv, i, e);
    if Live(kv, e) { StoredBy(kv, e); }
  }

  lemma KeepsOnce<E, I>(kv: Index.State<E, I>, i: Index.Action<E, I>)
    requires Index.Inv(kv) && Index.Enabled(kv, i) && StoredOnce(kv)
    requires Brings(i) ==> i.v !in Stored(kv)
    ensures StoredOnce(Index.Step(kv, i))
  {
    hide Index.Inv, Index.Step, Index.Enabled, Stored;
    var kv' := Index.Step(kv, i);
    forall e, f | e in kv'.heap && f in kv'.heap && Live(kv', e) && Live(kv', f)
                  && Index.At(kv', e).val == Index.At(kv', f).val
      ensures e == f
    {
      CameFrom(kv, i, e);
      CameFrom(kv, i, f);
      LiveKnown(kv, e);
      LiveKnown(kv, f);
    }
  }

  lemma LiveKnown<E, I>(kv: Index.State<E, I>, e: E)
    requires Index.Inv(kv)
    ensures Live(kv, e) ==> e in kv.heap
  {
  }

  /** What is evicted was in the index, and is not any more. */
  lemma EvictedLeaves<E, I>(kv: Index.State<E, I>, i: Index.Action<E, I>)
    requires Index.Inv(kv) && Index.Enabled(kv, i) && StoredOnce(kv)
    requires Brings(i) ==> i.v !in Stored(kv)
    requires Evicted(kv, i).Some?
    ensures Evicted(kv, i).value in Stored(kv) && Evicted(kv, i).value !in Stored(Index.Step(kv, i))
  {
    var x := Evicted(kv, i).value;
    var kv' := Index.Step(kv, i);
    var from := if i.DoSwap? then kv.items[i.k] else Index.ListAt(kv, i.t)[0];
    if i.DoVisit? {
      ListSetDrop(kv.lists, i.t);
      assert from !in Index.Sched(kv');
    }
    assert Live(kv, from);
    StoredBy(kv, from);
    forall e | Live(kv', e) ensures Index.At(kv', e).val != Some(x) {
      LiveFrom(kv, i, e);
    }
  }

  /** The callback log of the index is what Evicted says. */
  lemma EvictedLogged<E, I>(kv: Index.State<E, I>, i: Index.Action<E, I>)
    requires kv.notify
    ensures Index.Step(kv, i).evicted ==
            kv.evicted + (if Evicted(kv, i).Some? then [Evicted(kv, i).value] else [])
  {
  }

  // ---------- Eviction ----------

  /** The item is nowhere: neither in the index, nor with a writer, nor waiting, nor in the pool. */
  ghost predicate Loose<E, I>(s: Store<E, I>, x: I) {
    x in s.inUse && x !in Stored(s.kv) && x !in s.held && x !in s.retry && x !in s.pool
  }

  /** Steps that leave all readers alone leave all counts right. */
  lemma SameReaders<E, I>(s: Store<E, I>, s': Store<E, I>)
    requires CountsReaders(s) && s'.readers == s.readers
    requires s.inUse.Keys <= s'.inUse.Keys
    requires forall x :: x in s'.inUse ==> s'.inUse[x] == if x in s.inUse then s.inUse[x] else 0
    ensures CountsReaders(s')
  {
    forall x | x in s'.inUse ensures s'.inUse[x] == |Readers(s', x)| {
      assert Readers(s', x) == Readers(s, x);
      if x !in s.inUse {
        assert Readers(s, x) == {};
      }
    }
  }

  lemma Unread<E, I>(s: Store<E, I>, x: I)
    requires CountsReaders(s) && x in s.inUse && s.inUse[x] == 0
    ensures forall h :: h in s.readers ==> s.readers[h] != x
  {
    assert Readers(s, x) == {};
    assert forall h :: h in s.readers && s.readers[h] == x ==> h in Readers(s, x);
  }

  lemma PutPlaces<E, I>(s: Store<E, I>, x: I, keep: bool)
    requires OnePlace(s) && Known(s) && Loose(s, x)
    ensures OnePlace(Put(s, x, keep)) && Known(Put(s, x, keep))
  {
    hide Stored, StoredOnce;
    assert Pooled(Put(s, x, keep)) == if keep then Pooled(s) + {x} else Pooled(s);
    assert Waiting(Put(s, x, keep)) == Waiting(s);
  }

  lemma PutKeeps<E, I>(s: Store<E, I>, x: I, keep: bool)
    requires Inv(s) && Loose(s, x) && InUse(s, x) == 0
    ensures Inv(Put(s, x, keep))
  {
    hide Index.Inv, OnePlace, Known;
    SameReaders(s, Put(s, x, keep));
    Unread(s, x);
    PutPlaces(s, x, keep);
  }

  lemma RequeueKeeps<E, I>(s: Store<E, I>, x: I)
    requires Inv(s) && Loose(s, x)
    ensures Inv(s.(retry := s.retry + [x]))
  {
    hide Index.Inv, Stored, StoredOnce;
    var s' := s.(retry := s.retry + [x]);
    assert Waiting(s') == Waiting(s) + {x} && Pooled(s') == Pooled(s);
    SameReaders(s, s');
  }

  lemma OnEvictKeeps<E, I>(s: Store<E, I>, x: I, keep: bool)
    requires Inv(s) && Loose(s, x)
    ensures Inv(OnEvict(s, x, keep))
  {
    if InUse(s, x) == 0 {
      PutKeeps(s, x, keep);
    } else if |s.retry| < RETRY_SIZE {
      RequeueKeeps(s, x);
    }
  }

  // ---------- Steps ----------

  /** The index takes a step; a writer's item goes into it, if the step brings one. */
  function Moved<E, I>(s: Store<E, I>, i: Index.Action<E, I>): Store<E, I> {
    s.(held := if Brings(i) then s.held - {i.v} else s.held, kv := Index.Step(s.kv, i))
  }

  lemma MovePlaces<E, I>(s: Store<E, I>, s': Store<E, I>, out: set<I>, into: set<I>)
    requires OnePlace(s) && Known(s) && StoredOnce(s'.kv)
    requires into <= s.held && s'.held == s.held - into
    requires Stored(s'.kv) <= Stored(s.kv) + into - out
    requires s'.retry == s.retry && s'.pool == s.pool && s'.inUse == s.inUse && s'.content == s.content
    requires out <= Stored(s.kv)
    ensures OnePlace(s') && Known(s') && forall x :: x in out ==> Loose(s', x)
  {
    hide Stored, StoredOnce;
    assert Waiting(s') == Waiting(s) && Pooled(s') == Pooled(s);
    assert forall x :: x in s.pool ==> x in Pooled(s);
    assert forall x :: x in s.retry ==> x in Waiting(s);
  }

  lemma MoveKeeps<E, I>(s: Store<E, I>, i: Index.Action<E, I>)
    requires Inv(s) && Index.Enabled(s.kv, i) && (Brings(i) ==> i.v in s.held)
    ensures Inv(Moved(s, i)) && (Evicted(s.kv, i).Some? ==> Loose(Moved(s, i), Evicted(s.kv, i).value))
  {
    var s' := Moved(s, i);
    hide Index.Inv, Index.Step, Stored, StoredOnce, Evicted, Loose, OnePlace, Known;
    HeldOnly(s);
    KeepsOnce(s.kv, i);
    StepKeeps(s.kv, i);
    StoredFrom(s.kv, i);
    var out := if Evicted(s.kv, i).Some? then {Evicted(s.kv, i).value} else {};
    if Evicted(s.kv, i).Some? {
      EvictedLeaves(s.kv, i);
    }
    MovePlaces(s, s', out, if Brings(i) then {i.v} else {});
    SameReaders(s, s');
    SameIdle(s, s');
  }

  lemma HeldOnly<E, I>(s: Store<E, I>)
    requires OnePlace(s)
    ensures StoredOnce(s.kv) && forall x :: x in s.held ==> x !in Stored(s.kv)
  {
  }

  lemma ByIndexKeeps<E, I>(s: Store<E, I>, i: Index.Action<E, I>, keep: bool)
    requires Inv(s) && Index.Enabled(s.kv, i) && (Brings(i) ==> i.v in s.held)
    ensures Inv(ByIndex(s.(held := if Brings(i) then s.held - {i.v} else s.held), i, keep))
  {
    hide Inv, Evicted, OnEvict, Index.Step, Loose, Index.Enabled;
    MoveKeeps(s, i);
    if Evicted(s.kv, i).Some? {
      OnEvictKeeps(Moved(s, i), Evicted(s.kv, i).value, keep);
    }
  }

  lemma NewItemPlaces<E, I>(s: Store<E, I>, x: I)
    requires OnePlace(s) && Known(s) && Enabled(s, NewItem(x))
    ensures OnePlace(Step(s, NewItem(x))) && Known(Step(s, NewItem(x)))
  {
    hide Stored, StoredOnce;
    var s' := Step(s, NewItem(x));
    assert Pooled(s') == Pooled(s) - {x} && Waiting(s') == Waiting(s);
    assert x in s.pool ==> x in Pooled(s);
  }

  lemma NewItemKeeps<E, I>(s: Store<E, I>, x: I)
    requires Inv(s) && Enabled(s, NewItem(x))
    ensures Inv(Step(s, NewItem(x)))
  {
    hide Index.Inv, OnePlace, Known;
    NewItemPlaces(s, x);
    if x in s.pool {
      PooledIdle(s, x);
    }
    SameReaders(s, Step(s, NewItem(x)));
  }

  lemma PooledIdle<E, I>(s: Store<E, I>, x: I)
    requires Inv(s) && x in s.pool
    ensures x in s.inUse && s.inUse[x] == 0
  {
    assert x in Pooled(s);
    assert Readers(s, x) == {};
  }

  lemma FillKeeps<E, I>(s: Store<E, I>, x: I, b: Bytes)
    requires Inv(s) && Enabled(s, Fill(x, b))
    ensures Inv(Step(s, Fill(x, b)))
  {
    hide Index.Inv, Stored, StoredOnce;
    var s' := Step(s, Fill(x, b));
    assert Pooled(s') == Pooled(s) && Waiting(s') == Waiting(s);
    assert x in Pooled(s) ==> false;
    SameReaders(s, s');
  }

  /** A hit on k: the item that its entry holds. */
  lemma HitStored<E, I>(kv: Index.State<E, I>, k: Key)
    requires Index.Inv(kv) && k in kv.items
    ensures Index.At(kv, kv.items[k]).val.Some? && Index.At(kv, kv.items[k]).val.value in Stored(kv)
  {
    BoundLive(kv, k);
    StoredBy(kv, kv.items[k]);
  }

  lemma OneMoreReader<E, I>(s: Store<E, I>, s': Store<E, I>, x: I, h: Handle)
    requires CountsReaders(s) && x in s.inUse && h !in s.readers
    requires s'.readers == s.readers[h := x] && s'.inUse == s.inUse[x := s.inUse[x] + 1]
    ensures CountsReaders(s')
  {
    assert h !in Readers(s, x) && Readers(s', x) == Readers(s, x) + {h};
    forall y | y in s'.inUse && y != x ensures s'.inUse[y] == |Readers(s', y)| {
      assert Readers(s', y) == Readers(s, y);
    }
  }

  lemma OneReaderLess<E, I>(s: Store<E, I>, s': Store<E, I>, h: Handle)
    requires CountsReaders(s) && h in s.readers
    requires var x := s.readers[h];
             s'.readers == s.readers - {h} && s'.inUse == s.inUse[x := s.inUse[x] - 1]
    ensures CountsReaders(s')
  {
    var x := s.readers[h];
    assert h in Readers(s, x) && Readers(s', x) == Readers(s, x) - {h};
    forall y | y in s'.inUse && y != x ensures s'.inUse[y] == |Readers(s', y)| {
      assert Readers(s', y) == Readers(s, y);
    }
  }

  lemma GetKeeps<E, I>(s: Store<E, I>, h: Handle, k: Key)
    requires Inv(s) && Enabled(s, Get(h, k))
    ensures Inv(Step(s, Get(h, k)))
  {
    hide Index.Inv, Stored, StoredOnce, CountsReaders;
    var s' := Step(s, Get(h, k));
    if k in s.kv.items {
      HitStored(s.kv, k);
      var x := Index.At(s.kv, s.kv.items[k]).val.value;
      assert x !in s.held && x !in Pooled(s);
      OneMoreReader(s, s', x, h);
      assert Pooled(s') == Pooled(s) && Waiting(s') == Waiting(s);
    }
  }

  lemma DoneKeeps<E, I>(s: Store<E, I>, h: Handle)
    requires Inv(s) && Enabled(s, Done(h))
    ensures Inv(Step(s, Done(h)))
  {
    hide Index.Inv, Stored, StoredOnce, Readers;
    var s' := Step(s, Done(h));
    OneReaderLess(s, s', h);
    assert Pooled(s') == Pooled(s) && Waiting(s') == Waiting(s);
  }

  lemma Dequeued<E, I>(s: Store<E, I>)
    requires Inv(s) && s.retry != []
    ensures var s' := s.(retry := s.retry[1..]); Inv(s') && Loose(s', s.retry[0])
  {
    var s' := s.(retry := s.retry[1..]);
    hide Index.Inv, Stored, StoredOnce, IdleUnread;
    assert s.retry == [s.retry[0]] + s'.retry;
    assert Waiting(s) == Waiting(s') + {s.retry[0]} && Pooled(s') == Pooled(s);
    SameReaders(s, s');
    assert IdleUnread(s') by { SameIdle(s, s'); }
  }

  lemma SameIdle<E, I>(s: Store<E, I>, s': Store<E, I>)
    requires IdleUnread(s) && s'.readers == s.readers && s'.pool == s.pool
    requires s'.held <= s.held && s'.content == s.content
    ensures IdleUnread(s')
  {
  }

  lemma RetryKeeps<E, I>(s: Store<E, I>, keep: bool)
    requires Inv(s)
    ensures Inv(Step(s, Retry(keep)))
  {
    hide Inv;
    if s.retry != [] {
      Dequeued(s);
      OnEvictKeeps(s.(retry := s.retry[1..]), s.retry[0], keep);
    }
  }

  lemma StepInv<E, I>(s: Store<E, I>, a: Action<E, I>)
    requires Inv(s) && Enabled(s, a)
    ensures Inv(Step(s, a))
  {
    match a
    case NewItem(x) => NewItemKeeps(s, x);
    case Fill(x, b) => FillKeeps(s, x, b);
    case Get(h, k) => GetKeeps(s, h, k);
    case Done(h) => DoneKeeps(s, h);
    case Retry(keep) => RetryKeeps(s, keep);
    case Set(x, e, k, ttl) => ByIndexKeeps(s, IndexStep(a).value, true);
    case Swap(x, e, k, ttl, keep) => ByIndexKeeps(s, IndexStep(a).value, keep);
    case Visit(t, keep) => ByIndexKeeps(s, IndexStep(a).value, keep);
    case _ => ByIndexKeeps(s, IndexStep(a).value, true);
  }

  lemma InitInv<E, I>(now: int)
    ensures Inv<E, I>(Init(now))
  {
  }

  lemma {:induction false} RunInv<E, I>(now: int, acts: seq<Action<E, I>>)
    requires Allowed(Init(now), acts)
    ensures Inv(Run(Init(now), acts))
  {
    if acts == [] {
      InitInv<E, I>(now);
    } else {
      RunInv(now, acts[..|acts| - 1]);
      StepInv(Run(Init(now), acts[..|acts| - 1]), acts[|acts| - 1]);
    }
  }

  // ---------- Readers keep their item ----------

  /** Eviction of any item spares the content of one in use, and all readers. */
  lemma OnEvictSpares<E, I>(s: Store<E, I>, y: I, keep: bool, x: I)
    requires InUse(s, x) > 0
    ensures Content(OnEvict(s, y, keep), x) == Content(s, x) && OnEvict(s, y, keep).readers == s.readers
  {
  }

  lemma ByIndexSpares<E, I>(s: Store<E, I>, i: Index.Action<E, I>, keep: bool, x: I)
    requires InUse(s, x) > 0
    ensures Content(ByIndex(s, i, keep), x) == Content(s, x) && ByIndex(s, i, keep).readers == s.readers
  {
    hide Index.Step, Evicted;
    if Evicted(s.kv, i).Some? {
      OnEvictSpares(s.(kv := Index.Step(s.kv, i)), Evicted(s.kv, i).value, keep, x);
    }
  }

  lemma ItemStepSpares<E, I>(s: Store<E, I>, a: Action<E, I>, h: Handle)
    requires CountsReaders(s) && IdleUnread(s) && Enabled(s, a) && h in s.readers && a != Done(h)
    requires a.NewItem? || a.Fill? || a.Get? || a.Done?
    ensures var s' := Step(s, a);
            h in s'.readers && s'.readers[h] == s.readers[h] && Content(s', s.readers[h]) == Content(s, s.readers[h])
  {
    hide ByIndex, OnEvict, Readers, Index.Step;
    assert s.readers[h] in s.inUse && s.readers[h] !in s.pool && s.readers[h] !in s.held;
    hide CountsReaders, IdleUnread;
  }

  /** A step leaves every reader that stays with its item, and leaves the item's content as it is. */
  lemma ReaderKeepsItem<E, I>(s: Store<E, I>, a: Action<E, I>, h: Handle)
    requires CountsReaders(s) && IdleUnread(s) && Enabled(s, a) && h in s.readers && a != Done(h)
    ensures var s' := Step(s, a);
            h in s'.readers && s'.readers[h] == s.readers[h] && Content(s', s.readers[h]) == Content(s, s.readers[h])
  {
    hide ByIndex, OnEvict, CountsReaders, IdleUnread;
    var x := s.readers[h];
    BusyIsNotReset(s, h);
    match a
    case Set(y, e, k, ttl) => ByIndexSpares(s.(held := s.held - {y}), IndexStep(a).value, true, x);
    case Swap(y, e, k, ttl, keep) => ByIndexSpares(s.(held := s.held - {y}), IndexStep(a).value, keep, x);
    case Visit(t, keep) => ByIndexSpares(s, IndexStep(a).value, keep, x);
    case Delete(k) => ByIndexSpares(s, IndexStep(a).value, true, x);
    case Recv => ByIndexSpares(s, IndexStep(a).value, true, x);
    case Tick(d) => ByIndexSpares(s, IndexStep(a).value, true, x);
    case Retry(keep) => if s.retry != [] { OnEvictSpares(s.(retry := s.retry[1..]), s.retry[0], keep, x); }
    case _ => ItemStepSpares(s, a, h);
  }

  /** An item that someone reads counts at least that reader, so eviction queues it or lets it go. */
  lemma BusyIsNotReset<E, I>(s: Store<E, I>, h: Handle)
    requires CountsReaders(s) && h in s.readers
    ensures InUse(s, s.readers[h]) > 0
  {
    assert h in Readers(s, s.readers[h]);
  }

  predicate NoDone<E, I>(acts: seq<Action<E, I>>, h: Handle) {
    forall i :: 0 <= i < |acts| ==> acts[i] != Done(h)
  }

  lemma {:induction false} RunFromInv<E, I>(s: Store<E, I>, acts: seq<Action<E, I>>)
    requires Inv(s) && Allowed(s, acts)
    ensures Inv(Run(s, acts))
  {
    if acts != [] {
      RunFromInv(s, acts[..|acts| - 1]);
      StepInv(Run(s, acts[..|acts| - 1]), acts[|acts| - 1]);
    }
  }

  lemma {:induction false} KeptWhileReading<E, I>(s: Store<E, I>, acts: seq<Action<E, I>>, h: Handle)
    requires Inv(s) && Allowed(s, acts) && h in s.readers && NoDone(acts, h)
    ensures var s' := Run(s, acts);
            h in s'.readers && s'.readers[h] == s.readers[h] && Content(s', s.readers[h]) == Content(s, s.readers[h])
  {
    if acts != [] {
      var before := acts[..|acts| - 1];
      KeptWhileReading(s, before, h);
      RunFromInv(s, before);
      ReaderKeepsItem(Run(s, before), acts[|acts| - 1], h);
    }
  }

  /**
   From a Get to its Done, whatever sweeps, swaps, deletions, retries and recycling come in between,
   and however full the retry queue is: the reader's item is not in the pool, is not handed to a
   writer, and has the content it had.
   */
  lemma {:induction false} NoReaderLosesItsItem<E, I>(now: int, before: seq<Action<E, I>>,
        since: seq<Action<E, I>>, h: Handle)
    requires Allowed(Init(now), before) && Allowed(Run(Init(now), before), since)
    requires h in Run(Init(now), before).readers && NoDone(since, h)
    ensures var s := Run(Init(now), before);
            var s' := Run(s, since);
            var x := s.readers[h];
            && h in s'.readers && s'.readers[h] == x
            && Content(s', x) == Content(s, x)
            && x !in s'.pool && x !in s'.held
            && x in s'.inUse && s'.inUse[x] == |Readers(s', x)| > 0
  {
    var s := Run(Init(now), before);
    RunInv(now, before);
    KeptWhileReading(s, since, h);
    RunFromInv(s, since);
    BusyIsNotReset(Run(s, since), h);
  }

  /** In every reachable state: counts are right, and no item is pooled twice or while anything else has it. */
  lemma {:induction false} PoolIsSafe<E, I>(now: int, acts: seq<Action<E, I>>, x: I)
    requires Allowed(Init(now), acts)
    ensures var s := Run(Init(now), acts);
            && (x in s.inUse ==> s.inUse[x] == |Readers(s, x)|)
            && (x in s.pool ==>
                  s.pool[x] == 1 && Readers(s, x) == {} && Content(s, x) == []
                  && x !in s.held && x !in s.retry && x !in Stored(s.kv))
  {
    var s := Run(Init(now), acts);
    RunInv(now, acts);
    if x in s.pool {
      assert x in Pooled(s);
    }
  }
}
