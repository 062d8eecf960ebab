/**
 The retry queue: what is evicted while it is read gets into it, and comes out of it.
 */
module RefsRetry {
  import opened Wrappers
  import Index
  import opened IndexLive
  import opened Refs
  import opened RefsSafety
  import opened RefsQueue

  // ---------- Into the queue ----------

  /** The retry queue after x is evicted from a store whose queue is q. */
  function Requeued<E, I>(s: Store<E, I>, q: seq<I>, x: Option<I>): seq<I> {
    if x.Some? && InUse(s, x.value) != 0 && |q| < 1024 then q + [x.value] else q
  }

  lemma OnEvictQueue<E, I>(s: Store<E, I>, y: I, keep: bool)
    ensures OnEvict(s, y, keep).retry == Requeued(s, s.retry, Some(y))
  {
  }

  lemma ByIndexQueue<E, I>(s: Store<E, I>, i: Index.Action<E, I>, keep: bool)
    ensures ByIndex(s, i, keep).retry == Requeued(s, s.retry, Evicted(s.kv, i))
  {
    hide Index.Step, Evicted, OnEvict;
    if Evicted(s.kv, i).Some? {
      OnEvictQueue(s.(kv := Index.Step(s.kv, i)), Evicted(s.kv, i).value, keep);
    }
  }

  /**
   A step that drops an item with readers puts it at the end of the retry queue, unless 1024 are waiting there. A
   round takes the first one out. Nothing else changes the queue.
   */
  lemma RetryStep<E, I>(s: Store<E, I>, a: Action<E, I>)
    requires Enabled(s, a)
    ensures var q := if a.Retry? && s.retry != [] then s.retry[1..] else s.retry;
            Step(s, a).retry == Requeued(s, q, Drops(s, a))
  {
    hide Index.Step, OnEvict, ByIndex, Evicted, Requeued;
    if a.Retry? {
      if s.retry != [] {
        RetryQueue(s, a.keep);
      } else {
        NothingQueued(s, s.retry);
      }
    } else if IndexStep(a).Some? {
      var s0 := if a.Set? || a.Swap? then s.(held := s.held - {a.x}) else s;
      ByIndexQueue(s0, IndexStep(a).value, if a.Swap? || a.Visit? then a.keep else true);
      SameCounts(s, s0, s.retry, Evicted(s.kv, IndexStep(a).value));
    } else {
      NothingQueued(s, s.retry);
    }
  }

  lemma RetryQueue<E, I>(s: Store<E, I>, keep: bool)
    requires s.retry != []
    ensures Step(s, Retry(keep)).retry == Requeued(s, s.retry[1..], Some(s.retry[0]))
  {
    hide OnEvict;
    OnEvictQueue(s.(retry := s.retry[1..]), s.retry[0], keep);
  }

  lemma NothingQueued<E, I>(s: Store<E, I>, q: seq<I>)
    ensures Requeued(s, q, None) == q
  {
  }

  lemma SameCounts<E, I>(s: Store<E, I>, s0: Store<E, I>, q: seq<I>, x: Option<I>)
    requires s0.inUse == s.inUse
    ensures Requeued(s0, q, x) == Requeued(s, q, x)
  {
  }

  // ---------- Out of the queue ----------

  /** x is at position i of the queue, and nobody reads it. */
  predicate QueuedAt<E, I>(s: Store<E, I>, i: nat, x: I) {
    i < |s.retry| && s.retry[i] == x && InUse(s, x) == 0
  }

  lemma OnEvictUnread<E, I>(s: Store<E, I>, y: I, keep: bool, x: I)
    requires InUse(s, x) == 0
    ensures InUse(OnEvict(s, y, keep), x) == 0
  {
  }

  lemma ByIndexUnread<E, I>(s: Store<E, I>, i: Index.Action<E, I>, keep: bool, x: I)
    requires InUse(s, x) == 0
    ensures InUse(ByIndex(s, i, keep), x) == 0
  {
    hide Index.Step, Evicted, OnEvict;
    if Evicted(s.kv, i).Some? {
      OnEvictUnread(s.(kv := Index.Step(s.kv, i)), Evicted(s.kv, i).value, keep, x);
    }
  }

  /** No Get finds what is queued, so it stays unread. */
  lemma StaysUnread<E, I>(s: Store<E, I>, a: Action<E, I>, x: I)
    requires Inv(s) && Enabled(s, a) && x in s.retry && InUse(s, x) == 0
    ensures InUse(Step(s, a), x) == 0
  {
    if IndexStep(a).Some? {
      hide Inv, Index.Step, ByIndex;
      ByIndexUnread(if a.Set? || a.Swap? then s.(held := s.held - {a.x}) else s, IndexStep(a).value,
                    if a.Swap? || a.Visit? then a.keep else true, x);
    } else if a.Retry? {
      if s.retry != [] {
        OnEvictUnread(s.(retry := s.retry[1..]), s.retry[0], a.keep, x);
      }
    } else {
      assert x in Waiting(s);
      if a.Get? && a.k in s.kv.items {
        HitStored(s.kv, a.k);
      }
      if a.Done? && s.readers[a.h] == x {
        BusyIsNotReset(s, a.h);
      }
    }
  }

  /** A round moves it up by one, or, if it is the first, resets it and pools it if it is not too large. */
  lemma QueuedStep<E, I>(s: Store<E, I>, a: Action<E, I>, i: nat, x: I)
    requires Inv(s) && Enabled(s, a) && QueuedAt(s, i, x)
    ensures var s' := Step(s, a);
            if a.Retry? && i == 0 then x !in s'.retry && Content(s', x) == [] && (x in s'.pool <==> a.keep)
            else QueuedAt(s', if a.Retry? then i - 1 else i, x)
  {
    assert x in s.retry;
    if a.Retry? && i == 0 {
      FirstRetried(s, a.keep);
    } else {
      StaysUnread(s, a, x);
      RetryStep(s, a);
    }
  }

  lemma FirstRetried<E, I>(s: Store<E, I>, keep: bool)
    requires Inv(s) && s.retry != [] && InUse(s, s.retry[0]) == 0
    ensures var s', x := Step(s, Retry(keep)), s.retry[0];
            x !in s'.retry && Content(s', x) == [] && (x in s'.pool <==> keep)
  {
    Dequeued(s);
  }

  /** How many rounds of the retry loop a run has. */
  function Rounds<E, I>(acts: seq<Action<E, I>>): nat {
    if acts == [] then 0 else Rounds(acts[..|acts| - 1]) + if acts[|acts| - 1].Retry? then 1 else 0
  }

  lemma {:induction false} StillQueued<E, I>(s: Store<E, I>, acts: seq<Action<E, I>>, i: nat, x: I)
    requires Inv(s) && Allowed(s, acts) && QueuedAt(s, i, x) && Rounds(acts) <= i
    ensures Inv(Run(s, acts)) && QueuedAt(Run(s, acts), i - Rounds(acts), x)
  {
    hide Inv, Step, Enabled, QueuedAt;
    if acts != [] {
      var before, a := acts[..|acts| - 1], acts[|acts| - 1];
      StillQueued(s, before, i, x);
      QueuedStep(Run(s, before), a, i - Rounds(before), x);
      StepInv(Run(s, before), a);
    }
  }

  /**
   From every reachable state: what is queued and nobody reads is reset, and pooled if it is not too large, by
   the round that its place in the queue says, whatever other steps come before that.
   */
  lemma {:induction false} RetriedInTurn<E, I>(s: Store<E, I>, acts: seq<Action<E, I>>, keep: bool, i: nat, x: I)
    requires Inv(s) && Allowed(s, acts + [Retry(keep)]) && QueuedAt(s, i, x) && Rounds(acts) == i
    ensures var s' := Run(s, acts + [Retry(keep)]);
            x !in s'.retry && Content(s', x) == [] && (x in s'.pool <==> keep)
  {
    hide Inv, Step, Enabled, QueuedAt;
    assert (acts + [Retry(keep)])[..|acts|] == acts;
    StillQueued(s, acts, i, x);
    QueuedStep(Run(s, acts), Retry(keep), 0, x);
  }
}
