/**
 Items in memory that the value log still has to write, while the index may drop them.
 */
module RefsQueue {
  import opened Wrappers
  import Index
  import opened IndexLive
  import opened Log
  import opened Refs
  import opened RefsSafety

  /** The item a step drops: from the index, or from the retry queue. */
  function Drops<E, I>(s: Store<E, I>, a: Action<E, I>): Option<I> {
    if a.Retry? then if s.retry == [] then None else Some(s.retry[0])
    else if IndexStep(a).Some? then Evicted(s.kv, IndexStep(a).value)
    else None
  }

  /** The pool takes back what the step drops. */
  predicate Keeps<E, I>(a: Action<E, I>) {
    (a.Swap? || a.Visit? || a.Retry?) && a.keep
  }

  // ---------- Getting into a pool ----------

  lemma OnEvictPool<E, I>(s: Store<E, I>, y: I, keep: bool, x: I)
    ensures x in OnEvict(s, y, keep).pool <==> x in s.pool || (x == y && InUse(s, y) == 0 && keep)
  {
  }

  lemma ByIndexPool<E, I>(s: Store<E, I>, i: Index.Action<E, I>, keep: bool, x: I)
    ensures x in ByIndex(s, i, keep).pool <==>
            x in s.pool || (Evicted(s.kv, i) == Some(x) && InUse(s, x) == 0 && keep)
  {
    hide Index.Step, Evicted, OnEvict;
    if Evicted(s.kv, i).Some? {
      OnEvictPool(s.(kv := Index.Step(s.kv, i)), Evicted(s.kv, i).value, keep, x);
    }
  }

  lemma EvictsBy<E, I>(kv: Index.State<E, I>, i: Index.Action<E, I>)
    ensures Evicted(kv, i).Some? ==> i.DoSwap? || i.DoVisit?
  {
  }

  /** An item that is in no pool gets into one by a step that drops it while nobody reads it, and by no other. */
  lemma PooledIff<E, I>(s: Store<E, I>, a: Action<E, I>, x: I)
    requires Inv(s) && Enabled(s, a) && x !in s.pool
    ensures x in Step(s, a).pool <==> Drops(s, a) == Some(x) && InUse(s, x) == 0 && Keeps(a)
  {
    hide Inv, Index.Step, OnEvict, ByIndex, Evicted;
    if a.Retry? {
      if s.retry != [] {
        OnEvictPool(s.(retry := s.retry[1..]), s.retry[0], a.keep, x);
      }
    } else if IndexStep(a).Some? {
      ByIndexPool(if a.Set? || a.Swap? then s.(held := s.held - {a.x}) else s, IndexStep(a).value,
                  if a.Swap? || a.Visit? then a.keep else true, x);
      EvictsBy(s.kv, IndexStep(a).value);
    }
  }

  // ---------- The logs ----------

  /** An item that was sent to a log, under the key it was set with. */
  datatype Sent<I> = Sent(item: I, key: Key)

  /** One goroutine: its queue, and the item it has taken and not handed over yet. */
  datatype Reader<I> = Reader(queue: seq<Sent<I>>, taken: Option<Sent<I>>)

  function Pending<I>(r: Reader<I>): seq<Sent<I>> {
    (if r.taken.Some? then [r.taken.value] else []) + r.queue
  }

  datatype State<E(==), I(==)> = State(store: Store<E, I>, readers: map<int, Reader<I>>)

  datatype Logged<E(==), I(==)> =
    // A step of the store that is no hand-over.
    | Do(a: Action<E, I>)
    // The reader of log q takes an item, hands the item d on disk over for it, or gives it up.
    | Take(q: int)
    | HandOver(q: int, d: I, e: E, ttl: int, keep: bool)
    | GiveUp(q: int)

  function ReaderAt<E, I>(s: State<E, I>, q: int): Reader<I> {
    if q in s.readers then s.readers[q] else Reader([], None)
  }

  /** What the store does in a step. */
  function Base<E, I>(s: State<E, I>, l: Logged<E, I>): Option<Action<E, I>> {
    match l
    case Do(a) => Some(a)
    case HandOver(q, d, e, ttl, keep) =>
      if ReaderAt(s, q).taken.Some? then Some(Swap(d, e, ReaderAt(s, q).taken.value.key, ttl, keep)) else None
    case _ => None
  }

  /** What the logs do: a Set that is to live longer than minTtl queues its item with the log of its TTL. */
  function ReadersStep<E, I>(s: State<E, I>, minTtl: int, l: Logged<E, I>): map<int, Reader<I>> {
    match l
    case Do(a) =>
      if a.Set? && a.ttl > minTtl then
        var r := ReaderAt(s, LogKey(a.ttl));
        s.readers[LogKey(a.ttl) := r.(queue := r.queue + [Sent(a.x, a.k)])]
      else s.readers
    case Take(q) =>
      var r := ReaderAt(s, q);
      if r.taken.None? && r.queue != [] then s.readers[q := Reader(r.queue[1..], Some(r.queue[0]))] else s.readers
    case HandOver(q, _, _, _, _) => s.readers[q := ReaderAt(s, q).(taken := None)]
    case GiveUp(q) => s.readers[q := ReaderAt(s, q).(taken := None)]
  }

  function LogStep<E, I>(s: State<E, I>, minTtl: int, l: Logged<E, I>): State<E, I> {
    State(if Base(s, l).Some? then Step(s.store, Base(s, l).value) else s.store, ReadersStep(s, minTtl, l))
  }

  predicate LogEnabled<E, I>(s: State<E, I>, l: Logged<E, I>) {
    && (Base(s, l).Some? ==> Enabled(s.store, Base(s, l).value))
    && (l.Do? ==> !l.a.Swap?)
    && (l.HandOver? ==> ReaderAt(s, l.q).taken.Some?)
  }

  function LogRun<E, I>(now: int, minTtl: int, ls: seq<Logged<E, I>>): State<E, I> {
    if ls == [] then State(Refs.Init(now), map[])
    else LogStep(LogRun(now, minTtl, ls[..|ls| - 1]), minTtl, ls[|ls| - 1])
  }

  predicate LogAllowed<E, I>(now: int, minTtl: int, ls: seq<Logged<E, I>>) {
    ls == [] ||
    (LogAllowed(now, minTtl, ls[..|ls| - 1]) && LogEnabled(LogRun(now, minTtl, ls[..|ls| - 1]), ls[|ls| - 1]))
  }

  lemma {:induction false} LogInv<E, I>(now: int, minTtl: int, ls: seq<Logged<E, I>>)
    requires LogAllowed(now, minTtl, ls)
    ensures Inv(LogRun(now, minTtl, ls).store)
  {
    hide Inv, Step, Enabled;
    if ls == [] {
      RefsSafety.InitInv<E, I>(now);
    } else {
      var s, l := LogRun(now, minTtl, ls[..|ls| - 1]), ls[|ls| - 1];
      LogInv(now, minTtl, ls[..|ls| - 1]);
      if Base(s, l).Some? {
        StepInv(s.store, Base(s, l).value);
      }
    }
  }

  // ---------- Recycled with a log ----------

  /** A log still has x to write, or to hand over. */
  predicate WithLog<E, I>(s: State<E, I>, x: I) {
    exists q :: q in s.readers && exists m :: m in Pending(s.readers[q]) && m.item == x
  }

  /** It is in a pool all the same: the log will write what the next writer makes of it. */
  predicate Recycled<E, I>(s: State<E, I>, x: I) {
    WithLog(s, x) && x in s.store.pool
  }

  /** The step drops x while nobody reads it: x is reset, whether a pool takes it or not. */
  predicate DropsUnread<E, I>(s: State<E, I>, l: Logged<E, I>, x: I) {
    Base(s, l).Some? && Drops(s.store, Base(s, l).value) == Some(x) && InUse(s.store, x) == 0
  }

  /** The step drops x, unread, into a pool, and a log still has it. */
  predicate DropsLogged<E, I>(s: State<E, I>, minTtl: int, l: Logged<E, I>, x: I) {
    && x !in s.store.pool && WithLog(LogStep(s, minTtl, l), x) && DropsUnread(s, l, x) && Keeps(Base(s, l).value)
  }

  /** A Set has its item from a writer, not from a pool; other steps send nothing. */
  lemma SentFrom<E, I>(s: State<E, I>, minTtl: int, l: Logged<E, I>, x: I)
    requires Inv(s.store) && LogEnabled(s, l) && WithLog(LogStep(s, minTtl, l), x) && !WithLog(s, x)
    ensures l.Do? && l.a.Set? && x in s.store.held && x !in s.store.pool
  {
    hide Step, Inv, Enabled;
    var s' := LogStep(s, minTtl, l);
    var q :| q in s'.readers && exists m :: m in Pending(s'.readers[q]) && m.item == x;
    var m :| m in Pending(s'.readers[q]) && m.item == x;
    assert m !in Pending(ReaderAt(s, q));
    assert l.Do? && l.a.Set? && m == Sent(l.a.x, l.a.k);
    SetHeld(s.store, l.a);
  }

  lemma SetHeld<E, I>(s: Store<E, I>, a: Action<E, I>)
    requires Inv(s) && Enabled(s, a) && a.Set?
    ensures a.x in s.held && a.x !in s.pool && a.x in s.inUse && a.x !in s.retry && a.x !in Stored(s.kv)
  {
    assert forall y :: y in s.pool ==> y in Pooled(s);
    assert forall y :: y in s.retry ==> y in Waiting(s);
  }

  lemma FirstRecycled<E, I>(s: State<E, I>, minTtl: int, l: Logged<E, I>, x: I)
    requires Inv(s.store) && LogEnabled(s, l) && !Recycled(s, x)
    ensures Recycled(LogStep(s, minTtl, l), x) <==> DropsLogged(s, minTtl, l, x)
  {
    hide Step, Inv, Enabled, Drops, WithLog;
    if WithLog(LogStep(s, minTtl, l), x) {
      if !WithLog(s, x) {
        SentFrom(s, minTtl, l, x);
      }
      if Base(s, l).Some? {
        PooledIff(s.store, Base(s, l).value, x);
      }
    }
  }

  predicate EverRecycled<E, I>(now: int, minTtl: int, ls: seq<Logged<E, I>>, x: I) {
    exists i :: 0 <= i <= |ls| && Recycled(LogRun(now, minTtl, ls[..i]), x)
  }

  predicate EverDropped<E, I>(now: int, minTtl: int, ls: seq<Logged<E, I>>, x: I) {
    ls != [] &&
    (var before := ls[..|ls| - 1];
     EverDropped(now, minTtl, before, x) || DropsLogged(LogRun(now, minTtl, before), minTtl, ls[|ls| - 1], x))
  }

  lemma EverStep<E, I>(now: int, minTtl: int, ls: seq<Logged<E, I>>, x: I)
    requires ls != []
    ensures EverRecycled(now, minTtl, ls, x) <==>
            EverRecycled(now, minTtl, ls[..|ls| - 1], x) || Recycled(LogRun(now, minTtl, ls), x)
  {
    hide LogRun, Recycled;
    var before := ls[..|ls| - 1];
    assert ls[..|ls|] == ls;
    forall i | 0 <= i < |ls| ensures before[..i] == ls[..i] {
    }
  }

  /** In every run an item is recycled while a log has it exactly if some step drops it, unread, while a log has it. */
  lemma {:induction false} RecycledIff<E, I>(now: int, minTtl: int, ls: seq<Logged<E, I>>, x: I)
    requires LogAllowed(now, minTtl, ls)
    ensures EverRecycled(now, minTtl, ls, x) <==> EverDropped(now, minTtl, ls, x)
  {
    hide Inv, LogStep, LogEnabled, DropsLogged, Recycled;
    if ls == [] {
      NothingSent<E, I>(now, minTtl, x);
    } else {
      var before, l := ls[..|ls| - 1], ls[|ls| - 1];
      RecycledIff(now, minTtl, before, x);
      LogInv(now, minTtl, before);
      EverStep(now, minTtl, ls, x);
      if !Recycled(LogRun(now, minTtl, before), x) {
        FirstRecycled(LogRun(now, minTtl, before), minTtl, l, x);
      } else {
        assert before[..|before|] == before;
      }
    }
  }

  lemma NothingSent<E, I>(now: int, minTtl: int, x: I)
    ensures !EverRecycled<E, I>(now, minTtl, [], x)
  {
    var none: seq<Logged<E, I>> := [];
    assert none[..0] == none;
  }

  // ---------- Emptied with a log ----------

  /** The item is known, and with neither a pool nor a writer. */
  predicate Out<E, I>(s: Store<E, I>, x: I) {
    x in s.inUse && x !in s.pool && x !in s.held
  }

  lemma OnEvictContent<E, I>(s: Store<E, I>, y: I, keep: bool, x: I)
    requires Out(s, x)
    ensures var s' := OnEvict(s, y, keep);
            if x == y && InUse(s, x) == 0 then Content(s', x) == [] else Out(s', x) && Content(s', x) == Content(s, x)
  {
  }

  lemma ByIndexContent<E, I>(s: Store<E, I>, i: Index.Action<E, I>, keep: bool, x: I)
    requires Out(s, x)
    ensures var s' := ByIndex(s, i, keep);
            if Evicted(s.kv, i) == Some(x) && InUse(s, x) == 0 then Content(s', x) == []
            else Out(s', x) && Content(s', x) == Content(s, x)
  {
    hide Index.Step, Evicted, OnEvict;
    if Evicted(s.kv, i).Some? {
      OnEvictContent(s.(kv := Index.Step(s.kv, i)), Evicted(s.kv, i).value, keep, x);
    }
  }

  /** An item that is out keeps its content until a step drops it unread, and has none after that. */
  lemma StepContent<E, I>(s: Store<E, I>, a: Action<E, I>, x: I)
    requires Enabled(s, a) && Out(s, x)
    ensures var s' := Step(s, a);
            if Drops(s, a) == Some(x) && InUse(s, x) == 0 then Content(s', x) == []
            else Out(s', x) && Content(s', x) == Content(s, x)
  {
    hide Index.Step, OnEvict, ByIndex, Evicted;
    if a.Retry? {
      if s.retry != [] {
        OnEvictContent(s.(retry := s.retry[1..]), s.retry[0], a.keep, x);
      }
    } else if IndexStep(a).Some? {
      ByIndexContent(if a.Set? || a.Swap? then s.(held := s.held - {a.x}) else s, IndexStep(a).value,
                     if a.Swap? || a.Visit? then a.keep else true, x);
    }
  }

  function ContentAt<E, I>(now: int, minTtl: int, ls: seq<Logged<E, I>>, j: nat, x: I): Bytes
    requires j <= |ls|
  {
    Content(LogRun(now, minTtl, ls[..j]).store, x)
  }

  /** Step i sends x to a log. */
  predicate SentAt<E, I>(minTtl: int, ls: seq<Logged<E, I>>, i: nat, x: I) {
    i < |ls| && ls[i].Do? && ls[i].a.Set? && ls[i].a.x == x && ls[i].a.ttl > minTtl
  }

  /** After each of the steps from i to j - 1 a log has x. */
  predicate LoggedUntil<E, I>(now: int, minTtl: int, ls: seq<Logged<E, I>>, i: nat, j: nat, x: I)
    requires j <= |ls|
  {
    forall m :: i < m <= j ==> WithLog(LogRun(now, minTtl, ls[..m]), x)
  }

  predicate DropsAt<E, I>(now: int, minTtl: int, ls: seq<Logged<E, I>>, j: nat, x: I) {
    j < |ls| && DropsUnread(LogRun(now, minTtl, ls[..j]), ls[j], x)
  }

  /** The log that has x since step i has not the content that x was sent with. */
  predicate LosesContent<E, I>(now: int, minTtl: int, ls: seq<Logged<E, I>>, i: nat, x: I)
    requires i < |ls|
  {
    exists j :: i < j <= |ls| && LoggedUntil(now, minTtl, ls, i, j, x)
                && ContentAt(now, minTtl, ls, j, x) != ContentAt(now, minTtl, ls, i, x)
  }

  /** A step drops x unread, and a log has it from step i on until after that. */
  predicate DropsWhileLogged<E, I>(now: int, minTtl: int, ls: seq<Logged<E, I>>, i: nat, x: I) {
    exists j :: i < j < |ls| && DropsAt(now, minTtl, ls, j, x) && LoggedUntil(now, minTtl, ls, i, j + 1, x)
  }

  /** The j-th step of a run, on the state it is taken in. */
  lemma {:induction false} StepAt<E, I>(now: int, minTtl: int, ls: seq<Logged<E, I>>, j: nat)
    requires LogAllowed(now, minTtl, ls) && j < |ls|
    ensures var s := LogRun(now, minTtl, ls[..j]);
            && Inv(s.store) && LogEnabled(s, ls[j]) && LogRun(now, minTtl, ls[..j + 1]) == LogStep(s, minTtl, ls[j])
    decreases |ls|
  {
    hide LogStep, LogEnabled, Inv;
    var before := ls[..|ls| - 1];
    if j < |ls| - 1 {
      assert before[..j] == ls[..j] && before[..j + 1] == ls[..j + 1];
      StepAt(now, minTtl, before, j);
    } else {
      assert ls[..j + 1] == ls && ls[..j] == before;
      LogInv(now, minTtl, before);
    }
  }

  lemma SentOut<E, I>(now: int, minTtl: int, ls: seq<Logged<E, I>>, i: nat, x: I)
    requires LogAllowed(now, minTtl, ls) && SentAt(minTtl, ls, i, x)
    ensures Out(LogRun(now, minTtl, ls[..i + 1]).store, x)
    ensures ContentAt(now, minTtl, ls, i + 1, x) == ContentAt(now, minTtl, ls, i, x)
  {
    StepAt(now, minTtl, ls, i);
    SetHeld(LogRun(now, minTtl, ls[..i]).store, ls[i].a);
    hide LogRun, LogAllowed, Inv, Index.Step;
  }

  /** Content survives a step that does not drop it unread. */
  lemma ContentStep<E, I>(now: int, minTtl: int, ls: seq<Logged<E, I>>, j: nat, x: I)
    requires LogAllowed(now, minTtl, ls) && j < |ls| && Out(LogRun(now, minTtl, ls[..j]).store, x)
    ensures if DropsAt(now, minTtl, ls, j, x) then ContentAt(now, minTtl, ls, j + 1, x) == []
            else && Out(LogRun(now, minTtl, ls[..j + 1]).store, x)
                 && ContentAt(now, minTtl, ls, j + 1, x) == ContentAt(now, minTtl, ls, j, x)
  {
    hide LogRun, LogAllowed, Inv, Step, Out, Enabled, Drops;
    var s := LogRun(now, minTtl, ls[..j]);
    StepAt(now, minTtl, ls, j);
    if Base(s, ls[j]).Some? {
      StepContent(s.store, Base(s, ls[j]).value, x);
    }
  }

  lemma {:induction false} KeptUntil<E, I>(now: int, minTtl: int, ls: seq<Logged<E, I>>, i: nat, j: nat, x: I)
    requires LogAllowed(now, minTtl, ls) && SentAt(minTtl, ls, i, x) && i < j <= |ls|
    requires forall m :: i < m < j ==> !DropsAt(now, minTtl, ls, m, x)
    ensures Out(LogRun(now, minTtl, ls[..j]).store, x)
    ensures ContentAt(now, minTtl, ls, j, x) == ContentAt(now, minTtl, ls, i, x)
  {
    hide LogRun, LogAllowed, Out, DropsAt, ContentAt;
    if j == i + 1 {
      SentOut(now, minTtl, ls, i, x);
    } else {
      KeptUntil(now, minTtl, ls, i, j - 1, x);
      ContentStep(now, minTtl, ls, j - 1, x);
    }
  }

  lemma {:induction false} FirstDrop<E, I>(now: int, minTtl: int, ls: seq<Logged<E, I>>, i: nat, j: nat, x: I)
    returns (first: nat)
    requires i < j && DropsAt(now, minTtl, ls, j, x)
    ensures i < first <= j && DropsAt(now, minTtl, ls, first, x)
    ensures forall m :: i < m < first ==> !DropsAt(now, minTtl, ls, m, x)
    decreases j
  {
    hide DropsAt;
    first := j;
    if m :| i < m < j && DropsAt(now, minTtl, ls, m, x) {
      first := FirstDrop(now, minTtl, ls, i, m, x);
    }
  }

  /**
   In every run: while a log has what it was sent at step i, that has another content than it had then only if some
   step drops it, unread, while the log has it, and always if it had any. Whether it is too large for a pool makes no
   difference.
   */
  lemma LosesContentIff<E, I>(now: int, minTtl: int, ls: seq<Logged<E, I>>, i: nat, x: I)
    requires LogAllowed(now, minTtl, ls) && SentAt(minTtl, ls, i, x)
    ensures LosesContent(now, minTtl, ls, i, x) ==> DropsWhileLogged(now, minTtl, ls, i, x)
    ensures ContentAt(now, minTtl, ls, i, x) != [] ==>
              (LosesContent(now, minTtl, ls, i, x) <==> DropsWhileLogged(now, minTtl, ls, i, x))
  {
    hide LogRun, LogAllowed, DropsAt, ContentAt, WithLog, Out;
    if LosesContent(now, minTtl, ls, i, x) {
      var j :| i < j <= |ls| && LoggedUntil(now, minTtl, ls, i, j, x)
               && ContentAt(now, minTtl, ls, j, x) != ContentAt(now, minTtl, ls, i, x);
      if m :| i < m < j && DropsAt(now, minTtl, ls, m, x) {
        assert LoggedUntil(now, minTtl, ls, i, m + 1, x);
      } else {
        KeptUntil(now, minTtl, ls, i, j, x);
      }
    }
    if DropsWhileLogged(now, minTtl, ls, i, x) && ContentAt(now, minTtl, ls, i, x) != [] {
      var j :| i < j < |ls| && DropsAt(now, minTtl, ls, j, x) && LoggedUntil(now, minTtl, ls, i, j + 1, x);
      var first := FirstDrop(now, minTtl, ls, i, j, x);
      KeptUntil(now, minTtl, ls, i, first, x);
      ContentStep(now, minTtl, ls, first, x);
      assert LoggedUntil(now, minTtl, ls, i, first + 1, x);
    }
  }

  // ---------- A key set twice ----------

  /** A key is set to 0 and then to 1; the log takes 0, writes it, and hands 2 over. */
  function SetTwice(k: Key, ttl: int): seq<Logged<nat, nat>> {
    [] + [Do(NewItem(0))] + [Do(NewItem(1))] + [Do(NewItem(2))]
    + [Do(Refs.Set(0, 0, k, ttl))] + [Do(Refs.Set(1, 1, k, ttl))]
    + [Take(LogKey(ttl))] + [HandOver(LogKey(ttl), 2, 2, ttl, true)]
  }

  lemma OneMore(now: int, minTtl: int, ls: seq<Logged<nat, nat>>, l: Logged<nat, nat>)
    ensures LogRun(now, minTtl, ls + [l]) == LogStep(LogRun(now, minTtl, ls), minTtl, l)
    ensures LogAllowed(now, minTtl, ls + [l]) <==>
            LogAllowed(now, minTtl, ls) && LogEnabled(LogRun(now, minTtl, ls), l)
  {
    assert (ls + [l])[..|ls|] == ls;
  }

  /** Three writers take new items. */
  lemma ThreeItems(s: State<nat, nat>, now: int, minTtl: int)
    requires s == State(Refs.Init(now), map[])
    ensures var s1 := LogStep(s, minTtl, Do(NewItem(0)));
            var s2 := LogStep(s1, minTtl, Do(NewItem(1)));
            var s3 := LogStep(s2, minTtl, Do(NewItem(2)));
            && LogEnabled(s, Do(NewItem(0))) && LogEnabled(s1, Do(NewItem(1))) && LogEnabled(s2, Do(NewItem(2)))
            && s3.readers == map[] && s3.store.kv == Index.Init(now, true) && s3.store.held == {0, 1, 2}
            && s3.store.inUse == map[0 := 0, 1 := 0, 2 := 0] && s3.store.pool == multiset{}
  {
  }

  lemma NewItems(now: int, minTtl: int) returns (ls: seq<Logged<nat, nat>>)
    ensures ls == [] + [Do(NewItem(0))] + [Do(NewItem(1))] + [Do(NewItem(2))]
    ensures var s := LogRun(now, minTtl, ls);
            && LogAllowed(now, minTtl, ls) && s.readers == map[] && s.store.kv == Index.Init(now, true)
            && s.store.held == {0, 1, 2} && s.store.inUse == map[0 := 0, 1 := 0, 2 := 0] && s.store.pool == multiset{}
  {
    ls := [];
    var s := LogRun(now, minTtl, ls);
    assert s == State(Refs.Init(now), map[]) && LogAllowed(now, minTtl, ls);
    ThreeItems(s, now, minTtl);
    hide LogStep, LogEnabled, LogRun, LogAllowed;
    OneMore(now, minTtl, ls, Do(NewItem(0)));
    ls := ls + [Do(NewItem(0))];
    OneMore(now, minTtl, ls, Do(NewItem(1)));
    ls := ls + [Do(NewItem(1))];
    OneMore(now, minTtl, ls, Do(NewItem(2)));
    ls := ls + [Do(NewItem(2))];
  }

  lemma HandOverEvicts(s: Store<nat, nat>, now: int, k: Key, ttl: int)
    requires s.kv == Index.Init(now, true) && s.held == {0, 1, 2} && s.pool == multiset{}
    requires s.inUse == map[0 := 0, 1 := 0, 2 := 0]
    ensures var s1 := Step(s, Refs.Set(0, 0, k, ttl));
            var s2 := Step(s1, Refs.Set(1, 1, k, ttl));
            var s3 := Step(s2, Swap(2, 2, k, ttl, true));
            && Enabled(s, Refs.Set(0, 0, k, ttl)) && Enabled(s1, Refs.Set(1, 1, k, ttl))
            && Enabled(s2, Swap(2, 2, k, ttl, true)) && 1 in s3.pool
  {
  }

  /** The same with the log between them. */
  lemma LogHandsOver(s: State<nat, nat>, now: int, minTtl: int, k: Key, ttl: int)
    requires s.readers == map[] && ttl > minTtl
    requires s.store.kv == Index.Init(now, true) && s.store.held == {0, 1, 2} && s.store.pool == multiset{}
    requires s.store.inUse == map[0 := 0, 1 := 0, 2 := 0]
    ensures var q := LogKey(ttl);
            var s2 := LogStep(LogStep(s, minTtl, Do(Refs.Set(0, 0, k, ttl))), minTtl, Do(Refs.Set(1, 1, k, ttl)));
            var s3 := LogStep(s2, minTtl, Take(q));
            && LogEnabled(s, Do(Refs.Set(0, 0, k, ttl)))
            && LogEnabled(LogStep(s, minTtl, Do(Refs.Set(0, 0, k, ttl))), Do(Refs.Set(1, 1, k, ttl)))
            && LogEnabled(s2, Take(q)) && LogEnabled(s3, HandOver(q, 2, 2, ttl, true))
            && Recycled(LogStep(s3, minTtl, HandOver(q, 2, 2, ttl, true)), 1)
  {
    HandOverEvicts(s.store, now, k, ttl);
    hide Step, Enabled, LogKey, Refs.Init, Recycled, Pending;
    var q := LogKey(ttl);
    var s2 := LogStep(LogStep(s, minTtl, Do(Refs.Set(0, 0, k, ttl))), minTtl, Do(Refs.Set(1, 1, k, ttl)));
    assert s2.readers[q] == Reader([Sent(0, k), Sent(1, k)], None);
    SecondWaits(s2, minTtl, q, k, ttl);
  }

  /** When the first of two is handed over the second is still with the log. */
  lemma SecondWaits(s: State<nat, nat>, minTtl: int, q: int, k: Key, ttl: int)
    requires q in s.readers && s.readers[q] == Reader([Sent(0, k), Sent(1, k)], None)
    requires 1 in Step(s.store, Swap(2, 2, k, ttl, true)).pool && Enabled(s.store, Swap(2, 2, k, ttl, true))
    ensures var s3 := LogStep(s, minTtl, Take(q));
            && LogEnabled(s, Take(q)) && LogEnabled(s3, HandOver(q, 2, 2, ttl, true))
            && Recycled(LogStep(s3, minTtl, HandOver(q, 2, 2, ttl, true)), 1)
  {
    hide Step, Enabled;
    var s3 := LogStep(s, minTtl, Take(q));
    assert s3 == State(s.store, s.readers[q := Reader([Sent(1, k)], Some(Sent(0, k)))]);
    var s4 := LogStep(s3, minTtl, HandOver(q, 2, 2, ttl, true));
    assert s4.readers[q] == Reader([Sent(1, k)], None) && Sent(1, k) in Pending(s4.readers[q]);
  }

  /** The hand-over of the first version drops the second, which the log has still to write. */
  lemma SetTwiceRecycles(now: int, minTtl: int, k: Key, ttl: int)
    requires ttl > minTtl
    ensures LogAllowed(now, minTtl, SetTwice(k, ttl)) && Recycled(LogRun(now, minTtl, SetTwice(k, ttl)), 1)
  {
    var ls := NewItems(now, minTtl);
    LogHandsOver(LogRun(now, minTtl, ls), now, minTtl, k, ttl);
    hide LogStep, LogEnabled, LogRun, LogAllowed, LogKey, Recycled;
    OneMore(now, minTtl, ls, Do(Refs.Set(0, 0, k, ttl)));
    ls := ls + [Do(Refs.Set(0, 0, k, ttl))];
    OneMore(now, minTtl, ls, Do(Refs.Set(1, 1, k, ttl)));
    ls := ls + [Do(Refs.Set(1, 1, k, ttl))];
    OneMore(now, minTtl, ls, Take(LogKey(ttl)));
    ls := ls + [Take(LogKey(ttl))];
    OneMore(now, minTtl, ls, HandOver(LogKey(ttl), 2, 2, ttl, true));
  }
}
