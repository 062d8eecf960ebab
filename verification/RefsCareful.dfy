/**
 When items that a log still has to write are safe from recycling: no key is set again, and no entry of it
 is reaped, while a log has a version of it.
 */
module RefsCareful {
  import opened Wrappers
  import Index
  import opened IndexLive
  import Log
  import opened Refs
  import opened RefsSafety
  import opened RefsQueue

  predicate KeyWithLog<E, I>(s: State<E, I>, k: Key) {
    exists q :: q in s.readers && exists m :: m in Pending(s.readers[q]) && m.key == k
  }

  /** The key of the entry that a visit to list t reaps. */
  function ReapedKey<E, I>(s: Store<E, I>, t: int): Option<Key> {
    if Index.Reaps(s.kv, t) then Index.At(s.kv, Index.ListAt(s.kv, t)[0]).key else None
  }

  predicate CarefulStep<E, I>(s: State<E, I>, l: Logged<E, I>) {
    l.Do? ==>
      && (l.a.Set? ==> !KeyWithLog(s, l.a.k))
      && (l.a.Visit? && ReapedKey(s.store, l.a.t).Some? ==> !KeyWithLog(s, ReapedKey(s.store, l.a.t).value))
  }

  predicate Careful<E, I>(now: int, minTtl: int, ls: seq<Logged<E, I>>) {
    ls == [] ||
    (Careful(now, minTtl, ls[..|ls| - 1]) && CarefulStep(LogRun(now, minTtl, ls[..|ls| - 1]), ls[|ls| - 1]))
  }

  // ---------- One item and one step of the store ----------

  /** The item is known, and with neither a pool, a writer nor the retry queue. */
  predicate Apart<E, I>(s: Store<E, I>, x: I) {
    x in s.inUse && x !in s.pool && x !in s.held && x !in s.retry
  }

  /** Entries that hold x are entries of k. */
  ghost predicate UnderKey<E, I>(kv: Index.State<E, I>, x: I, k: Key) {
    forall e :: e in kv.heap && Live(kv, e) && Index.At(kv, e).val == Some(x) ==> Index.At(kv, e).key == Some(k)
  }

  lemma OnEvictOther<E, I>(s: Store<E, I>, y: I, keep: bool, x: I)
    requires Apart(s, x) && y != x
    ensures Apart(OnEvict(s, y, keep), x) && Content(OnEvict(s, y, keep), x) == Content(s, x)
  {
  }

  lemma ByIndexOther<E, I>(s: Store<E, I>, i: Index.Action<E, I>, keep: bool, x: I)
    requires Apart(s, x) && Evicted(s.kv, i) != Some(x)
    ensures Apart(ByIndex(s, i, keep), x) && Content(ByIndex(s, i, keep), x) == Content(s, x)
  {
    hide Index.Step, Evicted, OnEvict;
    if Evicted(s.kv, i).Some? {
      OnEvictOther(s.(kv := Index.Step(s.kv, i)), Evicted(s.kv, i).value, keep, x);
    }
  }

  /** A step that does not drop an item leaves it where it is, and its content as it is. */
  lemma StaysApart<E, I>(s: Store<E, I>, a: Action<E, I>, x: I)
    requires Enabled(s, a) && Apart(s, x) && Drops(s, a) != Some(x)
    ensures Apart(Step(s, a), x) && Content(Step(s, a), x) == Content(s, x)
  {
    hide Index.Step, OnEvict, ByIndex, Evicted;
    match a
    case Retry(keep) =>
      if s.retry != [] {
        assert forall y :: y in s.retry[1..] ==> y in s.retry;
        OnEvictOther(s.(retry := s.retry[1..]), s.retry[0], keep, x);
      }
    case Set(y, _, _, _) => ByIndexOther(s.(held := s.held - {y}), IndexStep(a).value, true, x);
    case Swap(y, _, _, _, keep) => ByIndexOther(s.(held := s.held - {y}), IndexStep(a).value, keep, x);
    case Visit(_, keep) => ByIndexOther(s, IndexStep(a).value, keep, x);
    case Delete(_) => ByIndexOther(s, IndexStep(a).value, true, x);
    case Recv => ByIndexOther(s, IndexStep(a).value, true, x);
    case Tick(_) => ByIndexOther(s, IndexStep(a).value, true, x);
    case _ =>
  }

  lemma OnEvictIndex<E, I>(s: Store<E, I>, y: I, keep: bool)
    ensures OnEvict(s, y, keep).kv == s.kv
  {
  }

  /** Of the index, a step changes what the index's own step does. */
  lemma StepIndex<E, I>(s: Store<E, I>, a: Action<E, I>)
    ensures Step(s, a).kv == if IndexStep(a).Some? then Index.Step(s.kv, IndexStep(a).value) else s.kv
  {
    hide Index.Step, Evicted, OnEvict;
    if IndexStep(a).Some? {
      ByIndexIndex(if a.Set? || a.Swap? then s.(held := s.held - {a.x}) else s, IndexStep(a).value,
                   if a.Swap? || a.Visit? then a.keep else true);
    } else if a.Retry? && s.retry != [] {
      OnEvictIndex(s.(retry := s.retry[1..]), s.retry[0], a.keep);
    }
  }

  lemma ByIndexIndex<E, I>(s: Store<E, I>, i: Index.Action<E, I>, keep: bool)
    ensures ByIndex(s, i, keep).kv == Index.Step(s.kv, i)
  {
    hide Index.Step, Evicted, OnEvict;
    if Evicted(s.kv, i).Some? {
      OnEvictIndex(s.(kv := Index.Step(s.kv, i)), Evicted(s.kv, i).value, keep);
    }
  }

  lemma IndexOk<E, I>(s: Store<E, I>, a: Action<E, I>)
    requires Inv(s) && Enabled(s, a)
    ensures Index.Inv(s.kv)
    ensures IndexStep(a).Some? ==>
              Index.Enabled(s.kv, IndexStep(a).value) && (Brings(IndexStep(a).value) ==> IndexStep(a).value.v in s.held)
  {
  }

  /** What is with no writer stays under its key. */
  lemma StaysUnderKey<E, I>(s: Store<E, I>, a: Action<E, I>, x: I, k: Key)
    requires Inv(s) && Enabled(s, a) && x !in s.held && UnderKey(s.kv, x, k)
    ensures UnderKey(Step(s, a).kv, x, k)
  {
    StepIndex(s, a);
    IndexOk(s, a);
    hide Inv, Step, Enabled, Index.Inv, Index.Step, Index.Enabled;
    if IndexStep(a).Some? {
      var i := IndexStep(a).value;
      var kv' := Index.Step(s.kv, i);
      forall e | e in kv'.heap && Live(kv', e) && Index.At(kv', e).val == Some(x)
        ensures Index.At(kv', e).key == Some(k)
      {
        LiveFrom(s.kv, i, e);
        LiveKnown(s.kv, e);
      }
    }
  }

  /** What is set is stored under its key alone. */
  lemma SetUnderKey<E, I>(s: Store<E, I>, a: Action<E, I>)
    requires Inv(s) && Enabled(s, a) && a.Set?
    ensures Apart(Step(s, a), a.x) && UnderKey(Step(s, a).kv, a.x, a.k)
  {
    SetHeld(s, a);
    StepIndex(s, a);
    IndexOk(s, a);
    var i := IndexStep(a).value;
    var kv' := Index.Step(s.kv, i);
    hide Inv, Enabled, Index.Inv, Index.Step, Index.Enabled, OnEvict;
    forall e | e in kv'.heap && Live(kv', e) && Index.At(kv', e).val == Some(a.x)
      ensures Index.At(kv', e).key == Some(a.k)
    {
      LiveFrom(s.kv, i, e);
      if Live(s.kv, e) {
        StoredBy(s.kv, e);
      }
    }
  }

  // ---------- The logs ----------

  ghost predicate SentOk<E, I>(s: Store<E, I>, m: Sent<I>) {
    Apart(s, m.item) && UnderKey(s.kv, m.item, m.key)
  }

  ghost predicate AllSentOk<E, I>(s: State<E, I>) {
    forall q :: q in s.readers ==> forall m :: m in Pending(s.readers[q]) ==> SentOk(s.store, m)
  }

  /** The key of the i-th item that log q has. */
  function KeyAt<I>(readers: map<int, Reader<I>>, q: int, i: int): Option<Key> {
    if q in readers && 0 <= i < |Pending(readers[q])| then Some(Pending(readers[q])[i].key) else None
  }

  /** The logs have at most one version of a key. */
  ghost predicate OneVersion<I>(readers: map<int, Reader<I>>) {
    forall q, p, i, j ::
      KeyAt(readers, q, i).Some? && KeyAt(readers, q, i) == KeyAt(readers, p, j) ==> q == p && i == j
  }

  ghost predicate CarefulInv<E, I>(s: State<E, I>) {
    Inv(s.store) && AllSentOk(s) && OneVersion(s.readers)
  }

  /** What a log has after a step it had before, or the step sent it. */
  lemma PendingFrom<E, I>(s: State<E, I>, minTtl: int, l: Logged<E, I>, q: int, m: Sent<I>)
    requires q in LogStep(s, minTtl, l).readers && m in Pending(LogStep(s, minTtl, l).readers[q])
    ensures || (q in s.readers && m in Pending(s.readers[q]))
            || (l.Do? && l.a.Set? && m == Sent(l.a.x, l.a.k))
  {
    hide Step;
  }

  /** The version that is handed over is not one that a log has afterwards. */
  lemma HandedOverAlone<E, I>(s: State<E, I>, minTtl: int, l: Logged<E, I>, q: int, m: Sent<I>)
    requires OneVersion(s.readers) && l.HandOver? && LogEnabled(s, l)
    requires q in LogStep(s, minTtl, l).readers && m in Pending(LogStep(s, minTtl, l).readers[q])
    ensures m.key != ReaderAt(s, l.q).taken.value.key
  {
    hide Step, Enabled;
    var r := s.readers[l.q];
    assert KeyAt(s.readers, l.q, 0) == Some(r.taken.value.key);
    if q == l.q {
      var j :| 0 <= j < |r.queue| && r.queue[j] == m;
      assert KeyAt(s.readers, q, j + 1) == Some(m.key);
    } else {
      var j :| 0 <= j < |Pending(s.readers[q])| && Pending(s.readers[q])[j] == m;
      assert KeyAt(s.readers, q, j) == Some(m.key);
    }
  }

  lemma KeyHeld<E, I>(s: State<E, I>, q: int, m: Sent<I>)
    requires q in s.readers && m in Pending(s.readers[q])
    ensures KeyWithLog(s, m.key)
  {
  }

  /** A careful step drops nothing that a log has after it. */
  lemma NotDropped<E, I>(s: State<E, I>, minTtl: int, l: Logged<E, I>, q: int, m: Sent<I>)
    requires CarefulInv(s) && LogEnabled(s, l) && CarefulStep(s, l) && Base(s, l).Some?
    requires q in s.readers && m in Pending(s.readers[q])
    requires q in LogStep(s, minTtl, l).readers && m in Pending(LogStep(s, minTtl, l).readers[q])
    ensures Drops(s.store, Base(s, l).value) != Some(m.item)
  {
    var a := Base(s, l).value;
    assert SentOk(s.store, m);
    KeyHeld(s, q, m);
    IndexOk(s.store, a);
    hide LogStep, Inv, Index.Inv, KeyWithLog;
    if a.Swap? {
      HandedOverAlone(s, minTtl, l, q, m);
      if a.k in s.store.kv.items {
        BoundLive(s.store.kv, a.k);
        LiveKnown(s.store.kv, s.store.kv.items[a.k]);
      }
    } else if a.Visit? {
      if Index.Reaps(s.store.kv, a.t) {
        HeadLive(s.store.kv, a.t);
      }
    }
  }

  /** The head of a list, if it holds a value, is live and known. */
  lemma HeadLive<E, I>(kv: Index.State<E, I>, t: int)
    requires Index.Inv(kv) && Index.ListAt(kv, t) != []
    ensures var e := Index.ListAt(kv, t)[0];
            e in kv.heap && (Index.At(kv, e).val.Some? ==> Live(kv, e))
  {
    var e := Index.ListAt(kv, t)[0];
    assert e in kv.lists[t];
    assert e in Index.ListSet(kv.lists);
  }

  lemma OneVersionStep<E, I>(s: State<E, I>, minTtl: int, l: Logged<E, I>)
    requires OneVersion(s.readers) && CarefulStep(s, l)
    ensures OneVersion(LogStep(s, minTtl, l).readers)
  {
    hide Step, OneVersion, KeyWithLog;
    match l
    case Do(a) =>
      if a.Set? && a.ttl > minTtl {
        NewVersion(s, Log.LogKey(a.ttl), Sent(a.x, a.k));
      }
    case Take(q) =>
      var r := ReaderAt(s, q);
      if r.taken.None? && r.queue != [] {
        assert Pending(Reader(r.queue[1..], Some(r.queue[0]))) == r.queue == Pending(r);
        FewerVersions(s.readers, q, Reader(r.queue[1..], Some(r.queue[0])), 0);
      }
    case HandOver(q, _, _, _, _) => TakenGone(s.readers, q, ReaderAt(s, q));
    case GiveUp(q) => TakenGone(s.readers, q, ReaderAt(s, q));
  }

  /** A new version of a key that no log has, at the end of a queue. */
  lemma NewKeyAt<E, I>(s: State<E, I>, q: int, m: Sent<I>, p: int, i: int)
    requires !KeyWithLog(s, m.key)
    ensures var r := ReaderAt(s, q);
            KeyAt(s.readers[q := r.(queue := r.queue + [m])], p, i)
            == if p == q && i == |Pending(r)| then Some(m.key) else KeyAt(s.readers, p, i)
    ensures KeyAt(s.readers, p, i) != Some(m.key)
  {
    var r := ReaderAt(s, q);
    assert Pending(r.(queue := r.queue + [m])) == Pending(r) + [m];
    if KeyAt(s.readers, p, i).Some? {
      KeyHeld(s, p, Pending(s.readers[p])[i]);
    }
  }

  lemma NewVersion<E, I>(s: State<E, I>, q: int, m: Sent<I>)
    requires OneVersion(s.readers) && !KeyWithLog(s, m.key)
    ensures var r := ReaderAt(s, q);
            OneVersion(s.readers[q := r.(queue := r.queue + [m])])
  {
    var r := ReaderAt(s, q);
    var after := s.readers[q := r.(queue := r.queue + [m])];
    hide KeyAt, KeyWithLog, Pending, ReaderAt;
    forall p1, p2, i, j | KeyAt(after, p1, i).Some? && KeyAt(after, p1, i) == KeyAt(after, p2, j)
      ensures p1 == p2 && i == j
    {
      NewKeyAt(s, q, m, p1, i);
      NewKeyAt(s, q, m, p2, j);
    }
  }

  /** Where log p had what it has at i now, if log q has dropped its first d items. */
  lemma LessKeyAt<I>(readers: map<int, Reader<I>>, q: int, r: Reader<I>, d: nat, p: int, i: int)
    requires var before := if q in readers then Pending(readers[q]) else [];
             d <= |before| && Pending(r) == before[d..]
    ensures KeyAt(readers[q := r], p, i).Some? ==>
              KeyAt(readers[q := r], p, i) == KeyAt(readers, p, if p == q then i + d else i)
  {
    hide Pending;
  }

  lemma FewerVersions<I>(readers: map<int, Reader<I>>, q: int, r: Reader<I>, d: nat)
    requires OneVersion(readers)
    requires var before := if q in readers then Pending(readers[q]) else [];
             d <= |before| && Pending(r) == before[d..]
    ensures OneVersion(readers[q := r])
  {
    var after := readers[q := r];
    hide KeyAt, Pending;
    forall p1, p2, i, j | KeyAt(after, p1, i).Some? && KeyAt(after, p1, i) == KeyAt(after, p2, j)
      ensures p1 == p2 && i == j
    {
      LessKeyAt(readers, q, r, d, p1, i);
      LessKeyAt(readers, q, r, d, p2, j);
    }
  }

  lemma TakenGone<I>(readers: map<int, Reader<I>>, q: int, r: Reader<I>)
    requires OneVersion(readers) && r == (if q in readers then readers[q] else Reader([], None))
    ensures OneVersion(readers[q := r.(taken := None)])
  {
    hide OneVersion;
    FewerVersions(readers, q, r.(taken := None), if r.taken.Some? then 1 else 0);
  }

  lemma SentStep<E, I>(s: State<E, I>, minTtl: int, l: Logged<E, I>, q: int, m: Sent<I>)
    requires CarefulInv(s) && LogEnabled(s, l) && CarefulStep(s, l)
    requires q in LogStep(s, minTtl, l).readers && m in Pending(LogStep(s, minTtl, l).readers[q])
    ensures SentOk(LogStep(s, minTtl, l).store, m)
    ensures q in s.readers && m in Pending(s.readers[q]) ==>
              Content(LogStep(s, minTtl, l).store, m.item) == Content(s.store, m.item)
  {
    PendingFrom(s, minTtl, l, q, m);
    if q in s.readers && m in Pending(s.readers[q]) {
      assert SentOk(s.store, m);
      if Base(s, l).Some? {
        NotDropped(s, minTtl, l, q, m);
        StaysApart(s.store, Base(s, l).value, m.item);
        StaysUnderKey(s.store, Base(s, l).value, m.item, m.key);
      }
    } else {
      SetUnderKey(s.store, l.a);
    }
  }

  lemma CarefulStepKeeps<E, I>(s: State<E, I>, minTtl: int, l: Logged<E, I>)
    requires CarefulInv(s) && LogEnabled(s, l) && CarefulStep(s, l)
    ensures CarefulInv(LogStep(s, minTtl, l))
  {
    var s' := LogStep(s, minTtl, l);
    OneVersionStep(s, minTtl, l);
    if Base(s, l).Some? {
      StepInv(s.store, Base(s, l).value);
    }
    hide Inv, OneVersion, SentOk, LogStep, CarefulStep;
    forall q | q in s'.readers ensures forall m :: m in Pending(s'.readers[q]) ==> SentOk(s'.store, m) {
      forall m | m in Pending(s'.readers[q]) ensures SentOk(s'.store, m) {
        SentStep(s, minTtl, l, q, m);
      }
    }
  }

  lemma {:induction false} CarefulRun<E, I>(now: int, minTtl: int, ls: seq<Logged<E, I>>)
    requires LogAllowed(now, minTtl, ls) && Careful(now, minTtl, ls)
    ensures CarefulInv(LogRun(now, minTtl, ls))
  {
    if ls == [] {
      RefsSafety.InitInv<E, I>(now);
    } else {
      CarefulRun(now, minTtl, ls[..|ls| - 1]);
      CarefulStepKeeps(LogRun(now, minTtl, ls[..|ls| - 1]), minTtl, ls[|ls| - 1]);
    }
  }

  /**
   In a run that sets no key again and reaps no entry of it while a log has a version of it: what a log has is
   in no pool and with no writer, and keeps its content until the log has handed it over or given it up.
   */
  lemma {:induction false} LoggedItemsStay<E, I>(now: int, minTtl: int, ls: seq<Logged<E, I>>, q: int, m: Sent<I>)
    requires LogAllowed(now, minTtl, ls) && Careful(now, minTtl, ls)
    requires q in LogRun(now, minTtl, ls).readers && m in Pending(LogRun(now, minTtl, ls).readers[q])
    ensures var s := LogRun(now, minTtl, ls);
            m.item !in s.store.pool && m.item !in s.store.held
    ensures ls != [] ==>
              var before := LogRun(now, minTtl, ls[..|ls| - 1]);
              q in before.readers && m in Pending(before.readers[q]) ==>
                Content(LogRun(now, minTtl, ls).store, m.item) == Content(before.store, m.item)
  {
    CarefulRun(now, minTtl, ls);
    assert SentOk(LogRun(now, minTtl, ls).store, m);
    if ls != [] {
      CarefulRun(now, minTtl, ls[..|ls| - 1]);
      SentStep(LogRun(now, minTtl, ls[..|ls| - 1]), minTtl, ls[|ls| - 1], q, m);
    }
  }
}
